/**
 * The persistent records both route files work on, kept in memory.
 * Every table is a sequence in primary-key (creation) order, so that
 * ActiveRecord's `.first`, `.last` and `find_by_*` have a meaning here.
 */
module Store {
  import opened Wrappers

  /** The `state` column of a submission. */
  datatype State = Pending | Done | Hibernating | Other(name: string)

  /** A user; `key` is the API key, `guest` the anonymous visitor. */
  datatype User = User(id: nat, key: Option<string>, guest: bool)

  /** The per-user aggregate for one exercise (language, slug). */
  datatype UserExercise = UserExercise(
    userId: nat,
    language: string,
    slug: string,
    iterationCount: nat,
    skippedAt: Option<int>)

  /**
   * A stored submission. `language` is its track id, `name` the display
   * name of its problem, `prior` the key of the submission it followed.
   */
  datatype Submission = Submission(
    key: string,
    userId: nat,
    language: string,
    slug: string,
    name: string,
    state: State,
    doneAt: Option<int>,
    prior: Option<string>)

  /** Calls into collaborators whose code is not part of this model. */
  datatype Event =
    | Liked(key: string, userId: nat)                          // Submission#like!
    | Notified(key: string, kind: string, actorId: nat)        // Notify.source
    | Toggled(action: string, key: string, userId: nat)        // Submission#unlike! / mute! / unmute!
    | Completed(key: string)                                   // Completion#save
    | LifecycleTracked(kind: string, userId: nat)              // LifecycleEvent.track
    | UserExerciseUpdated(userId: nat, language: string, slug: string)   // Hack::UpdatesUserExercise
    | UserExerciseReopened(userId: nat, language: string, slug: string)  // UserExercise#reopen!
    | VersionDecremented(key: string)                          // decrement_version

  /** The database: users, user exercises, submissions, and the log of external calls. */
  class Database {
    var users: seq<User>
    var exercises: seq<UserExercise>
    var submissions: seq<Submission>
    var log: seq<Event>

    constructor (users: seq<User>, exercises: seq<UserExercise>, submissions: seq<Submission>)
      ensures this.users == users && this.exercises == exercises
      ensures this.submissions == submissions && log == []
    {
      this.users := users;
      this.exercises := exercises;
      this.submissions := submissions;
      log := [];
    }
  }

  /** The index of the first row satisfying `p` (a `where(...).first`). */
  function FirstIndex<T>(rows: seq<T>, p: T -> bool): (r: Option<nat>)
    ensures r.Some? ==> r.value < |rows| && p(rows[r.value])
    ensures r.Some? ==> forall j :: 0 <= j < r.value ==> !p(rows[j])
    ensures r.None? <==> forall j :: 0 <= j < |rows| ==> !p(rows[j])
  {
    if rows == [] then None
    else if p(rows[0]) then Some(0)
    else match FirstIndex(rows[1..], p)
      case Some(i) => Some(i + 1)
      case None => None
  }

  /** The index of the last row satisfying `p` (a `.last` over a filtered association). */
  function LastIndex<T>(rows: seq<T>, p: T -> bool): (r: Option<nat>)
    ensures r.Some? ==> r.value < |rows| && p(rows[r.value])
    ensures r.Some? ==> forall j :: r.value < j < |rows| ==> !p(rows[j])
    ensures r.None? <==> forall j :: 0 <= j < |rows| ==> !p(rows[j])
  {
    if rows == [] then None
    else if p(rows[|rows| - 1]) then Some(|rows| - 1)
    else LastIndex(rows[..|rows| - 1], p)
  }

  /** `Submission.find_by_key(key)`, as an index. */
  function FindByKey(rows: seq<Submission>, key: string): (r: Option<nat>)
    ensures r.Some? ==> r.value < |rows| && rows[r.value].key == key
    ensures r.Some? ==> forall j :: 0 <= j < r.value ==> rows[j].key != key
    ensures r.None? <==> forall j :: 0 <= j < |rows| ==> rows[j].key != key
  {
    FirstIndex(rows, (s: Submission) => s.key == key)
  }

  /** `Submission.find_by_key(key)`, as the record or nil. */
  function Lookup(rows: seq<Submission>, key: string): (r: Option<Submission>)
    ensures r.Some? <==> exists j :: 0 <= j < |rows| && rows[j].key == key
    ensures r.Some? ==> r.value in rows && r.value.key == key
  {
    match FindByKey(rows, key)
    case Some(i) => Some(rows[i])
    case None => None
  }

  /** Whether a submission belongs to a user exercise (same user, language and slug). */
  predicate BelongsTo(s: Submission, e: UserExercise)
  {
    s.userId == e.userId && s.language == e.language && s.slug == e.slug
  }

  /** Whether two submissions are of the same user and exercise. */
  predicate SameExercise(s: Submission, t: Submission)
  {
    s.userId == t.userId && s.language == t.language && s.slug == t.slug
  }

  /** No two submissions share a key. */
  predicate UniqueKeys(rows: seq<Submission>)
  {
    forall i, j :: 0 <= i < j < |rows| ==> rows[i].key != rows[j].key
  }
}
