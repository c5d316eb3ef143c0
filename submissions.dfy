/**
 * The web application's submission routes (lib/app/routes/submissions.rb):
 * liking and muting, and the owner-only transitions done, reopen, hibernate,
 * wakeup and delete. A handler stops at the first failed guard with a flash
 * message and a redirect, and nothing after that guard happens.
 */
module Submissions {
  import opened Wrappers
  import opened Store

  datatype Flash = NoFlash | Notice(text: string) | Success(text: string)

  datatype Outcome =
    | Redirect(flash: Flash, location: string)
    | LoginRequired(message: Option<string>)   // please_login stops a guest
    | NoRoute                                  // no route serves the request
    | ServerError                              // a method is called on nil

  const LOGIN := "You have to be logged in to do that."
  const LOGIN_SHORT := "You have to be logged in to do that"
  const NO_SUCH_EXERCISE := "No such exercise found"
  const UNLIKED := "The submission has been unliked."
  const MUTED := "The submission has been muted. It will reappear when there has been some activity."
  const UNMUTED := "The submission has been unmuted."

  function SubmissionPath(key: string): string
  {
    "/submissions/" + key
  }

  /** `current_user.owns?(submission)`: a signed-in user who wrote it; never for nil. */
  function Owns(user: User, s: Option<Submission>): (r: bool)
    ensures r ==> s.Some? && s.value.userId == user.id
    ensures user.guest ==> !r
  {
    !user.guest && s.Some? && s.value.userId == user.id
  }

  // ---------------------------------------------------------------------
  // Like, unlike, mute, unmute

  /** `post '/submissions/:key/like'`. */
  method Like(db: Database, user: User, key: string) returns (o: Outcome)
    modifies db`log
    ensures user.guest ==> o == LoginRequired(Some(LOGIN)) && db.log == old(db.log)
    ensures !user.guest && Lookup(db.submissions, key).None? ==>
      o == Redirect(Notice(NO_SUCH_EXERCISE), "/") && db.log == old(db.log)
    ensures !user.guest && Lookup(db.submissions, key).Some? ==>
      o == Redirect(NoFlash, SubmissionPath(key))
      && db.log == old(db.log) + [Liked(key, user.id), Notified(key, "like", user.id)]
  {
    if user.guest {
      return LoginRequired(Some(LOGIN));
    }
    var submission := Lookup(db.submissions, key);
    if submission.None? {
      return Redirect(Notice(NO_SUCH_EXERCISE), "/");
    }
    db.log := db.log + [Liked(key, user.id)];
    db.log := db.log + [Notified(key, "like", user.id)];
    o := Redirect(NoFlash, SubmissionPath(key));
  }

  /** Lines 40-44: the actions that share one handler, each with its confirmation. */
  const TOGGLES: seq<(string, string)> := [("unlike", UNLIKED), ("mute", MUTED), ("unmute", UNMUTED)]

  /** The confirmation for an action of the table; None when no such route exists. */
  function Confirmation(action: string): (m: Option<string>)
    ensures m.Some? <==> action == "unlike" || action == "mute" || action == "unmute"
    ensures action == "unlike" ==> m == Some(UNLIKED)
    ensures action == "mute" ==> m == Some(MUTED)
    ensures action == "unmute" ==> m == Some(UNMUTED)
  {
    match FirstIndex(TOGGLES, (entry: (string, string)) => entry.0 == action)
    case Some(i) => Some(TOGGLES[i].1)
    case None =>
      assert TOGGLES[0].0 == "unlike" && TOGGLES[1].0 == "mute" && TOGGLES[2].0 == "unmute";
      None
  }

  /**
   * `post '/submissions/:key/<action>'` for unlike, mute and unmute. An
   * unknown key is not checked: the action is sent to nil and raises.
   */
  method Toggle(db: Database, user: User, action: string, key: string) returns (o: Outcome)
    modifies db`log
    ensures Confirmation(action).None? ==> o == NoRoute && db.log == old(db.log)
    ensures Confirmation(action).Some? && user.guest ==>
      o == LoginRequired(Some(LOGIN)) && db.log == old(db.log)
    ensures Confirmation(action).Some? && !user.guest && Lookup(db.submissions, key).None? ==>
      o == ServerError && db.log == old(db.log)
    ensures Confirmation(action).Some? && !user.guest && Lookup(db.submissions, key).Some? ==>
      o == Redirect(Notice(Confirmation(action).value), SubmissionPath(key))
      && db.log == old(db.log) + [Toggled(action, key, user.id)]
  {
    var confirmation := Confirmation(action);
    if confirmation.None? {
      return NoRoute;
    }
    if user.guest {
      return LoginRequired(Some(LOGIN));
    }
    var submission := Lookup(db.submissions, key);
    if submission.None? {
      return ServerError;
    }
    db.log := db.log + [Toggled(action, key, user.id)];
    o := Redirect(Notice(confirmation.value), SubmissionPath(key));
  }

  /** A word of the regular expression `\w`: letters, digits and underscore. */
  predicate IsWordChar(c: char)
  {
    ('a' <= c <= 'z') || ('A' <= c <= 'Z') || ('0' <= c <= '9') || c == '_'
  }

  predicate IsWord(s: string)
  {
    s != [] && forall i :: 0 <= i < |s| ==> IsWordChar(s[i])
  }

  /** `(\+?un)?<word>$`. */
  predicate OptionallyUndone(s: string, word: string)
  {
    s == word || s == "un" + word || s == "+un" + word
  }

  /** The action suffixes of the legacy GET route `nitpick$|(\+?un)?like$|(\+?un)?mute$`. */
  predicate IsLegacySuffix(s: string)
  {
    s == "nitpick" || OptionallyUndone(s, "like") || OptionallyUndone(s, "mute")
  }

  /**
   * The legacy GET route on `/submissions/<key>/<suffix>`: None when it does
   * not match, otherwise a plain redirect to the submission.
   */
  function LegacyRedirect(key: string, suffix: string): (o: Option<Outcome>)
    ensures o.Some? <==> IsWord(key) && suffix in ["nitpick", "like", "unlike", "+unlike", "mute", "unmute", "+unmute"]
    ensures o.Some? ==> o.value == Redirect(NoFlash, SubmissionPath(key))
  {
    assert "un" + "like" == "unlike" && "+un" + "like" == "+unlike";
    assert "un" + "mute" == "unmute" && "+un" + "mute" == "+unmute";
    if IsWord(key) && IsLegacySuffix(suffix) then Some(Redirect(NoFlash, SubmissionPath(key))) else None
  }

  // ---------------------------------------------------------------------
  // Done and wakeup: owner-only, the rows are left to collaborators

  /** `post '/submissions/:key/done'`. */
  method MarkDone(db: Database, user: User, key: string) returns (o: Outcome)
    modifies db`log
    ensures user.guest ==> o == LoginRequired(Some(LOGIN_SHORT)) && db.log == old(db.log)
    ensures !user.guest && !Owns(user, Lookup(db.submissions, key)) ==>
      o == Redirect(Notice("Only the author may complete the exercise."), SubmissionPath(key))
      && db.log == old(db.log)
    ensures !user.guest && Owns(user, Lookup(db.submissions, key)) ==>
      var s := Lookup(db.submissions, key).value;
      o == Redirect(Success(s.name + " in " + s.language + " will no longer appear in the nitpick lists."), "/")
      && db.log == old(db.log) + [Completed(key), LifecycleTracked("completed", user.id)]
  {
    if user.guest {
      return LoginRequired(Some(LOGIN_SHORT));
    }
    var submission := Lookup(db.submissions, key);
    if !Owns(user, submission) {
      return Redirect(Notice("Only the author may complete the exercise."), SubmissionPath(key));
    }
    var s := submission.value;
    db.log := db.log + [Completed(key)];
    db.log := db.log + [LifecycleTracked("completed", user.id)];
    o := Redirect(Success(s.name + " in " + s.language + " will no longer appear in the nitpick lists."), "/");
  }

  /** `post '/submissions/:key/wakeup'`; this route does not ask for a login. */
  method Wakeup(db: Database, user: User, key: string) returns (o: Outcome)
    modifies db`log
    ensures !Owns(user, Lookup(db.submissions, key)) ==>
      o == Redirect(Notice("Only the author may reactivate the exercise."), SubmissionPath(key))
      && db.log == old(db.log)
    ensures Owns(user, Lookup(db.submissions, key)) ==>
      var s := Lookup(db.submissions, key).value;
      o == Redirect(Success(s.name + " in " + s.language + " is now active."), "/")
      && db.log == old(db.log) + [UserExerciseReopened(s.userId, s.language, s.slug)]
  {
    var submission := Lookup(db.submissions, key);
    if !Owns(user, submission) {
      return Redirect(Notice("Only the author may reactivate the exercise."), SubmissionPath(key));
    }
    var s := submission.value;
    db.log := db.log + [UserExerciseReopened(s.userId, s.language, s.slug)];
    o := Redirect(Success(s.name + " in " + s.language + " is now active."), "/");
  }

  // ---------------------------------------------------------------------
  // Reopen

  /** `Submission.where(user_id:, language:, slug:, state: 'done').first`. */
  function FirstDone(subs: seq<Submission>, userId: nat, language: string, slug: string): (r: Option<nat>)
    ensures r.Some? ==>
      (r.value < |subs| && subs[r.value].state == Done && subs[r.value].userId == userId
       && subs[r.value].language == language && subs[r.value].slug == slug)
    ensures r.Some? ==> forall j :: 0 <= j < r.value ==>
      !(subs[j].state == Done && subs[j].userId == userId && subs[j].language == language && subs[j].slug == slug)
    ensures r.None? <==> forall j :: 0 <= j < |subs| ==>
      !(subs[j].state == Done && subs[j].userId == userId && subs[j].language == language && subs[j].slug == slug)
  {
    FirstIndex(subs, (s: Submission) => s.userId == userId && s.language == language && s.slug == slug && s.state == Done)
  }

  /** The submission to reopen for the keyed one: the caller's first done submission of that exercise. */
  function ReopenTarget(subs: seq<Submission>, user: User, key: string): (r: Option<nat>)
    ensures Lookup(subs, key).None? ==> r.None?
    ensures r.Some? ==> (r.value < |subs| && subs[r.value].state == Done && subs[r.value].userId == user.id
                         && subs[r.value].language == Lookup(subs, key).value.language
                         && subs[r.value].slug == Lookup(subs, key).value.slug)
    ensures Lookup(subs, key).Some? ==>
      var sel := Lookup(subs, key).value;
      && (r.None? <==> forall j :: 0 <= j < |subs| ==>
            !(subs[j].state == Done && subs[j].userId == user.id
              && subs[j].language == sel.language && subs[j].slug == sel.slug))
      && (r.Some? ==> forall j :: 0 <= j < r.value ==>
            !(subs[j].state == Done && subs[j].userId == user.id
              && subs[j].language == sel.language && subs[j].slug == sel.slug))
  {
    match Lookup(subs, key)
    case None => None
    case Some(selected) => FirstDone(subs, user.id, selected.language, selected.slug)
  }

  /** `post '/submissions/:key/reopen'`: back to pending with no completion time. */
  method Reopen(db: Database, user: User, key: string) returns (o: Outcome)
    modifies db`submissions, db`log
    ensures UniqueKeys(old(db.submissions)) ==> UniqueKeys(db.submissions)
    ensures user.guest ==> o == LoginRequired(None) && unchanged(db)
    ensures !user.guest && !Owns(user, Lookup(old(db.submissions), key)) ==>
      o == Redirect(Notice("Only the current author may reopen the exercise"), "/") && unchanged(db)
    ensures (!user.guest && Owns(user, Lookup(old(db.submissions), key))
      && ReopenTarget(old(db.submissions), user, key).None?) ==>
      o == Redirect(Notice("No such submission"), "/") && unchanged(db)
    ensures (!user.guest && Owns(user, Lookup(old(db.submissions), key))
      && ReopenTarget(old(db.submissions), user, key).Some?) ==>
      var j := ReopenTarget(old(db.submissions), user, key).value;
      var t := old(db.submissions)[j];
      db.submissions == old(db.submissions)[j := t.(state := Pending, doneAt := None)]
      && o == Redirect(NoFlash, SubmissionPath(t.key))
      && db.log == old(db.log) + [UserExerciseUpdated(t.userId, t.language, t.slug)]
  {
    if user.guest {
      return LoginRequired(None);
    }
    var selected := Lookup(db.submissions, key);
    if !Owns(user, selected) {
      return Redirect(Notice("Only the current author may reopen the exercise"), "/");
    }
    var found := FirstDone(db.submissions, user.id, selected.value.language, selected.value.slug);
    if found.None? {
      return Redirect(Notice("No such submission"), "/");
    }
    var j := found.value;
    var submission := db.submissions[j];
    submission := submission.(state := Pending);
    submission := submission.(doneAt := None);
    db.submissions := db.submissions[j := submission];
    db.log := db.log + [UserExerciseUpdated(submission.userId, submission.language, submission.slug)];
    o := Redirect(NoFlash, SubmissionPath(submission.key));
  }

  // ---------------------------------------------------------------------
  // Hibernate

  /**
   * `Submission.find_by_key(key).participant_submissions.last`: the latest
   * submission of the keyed one's user and exercise, None for an unknown key.
   */
  function HibernateTarget(subs: seq<Submission>, key: string): (r: Option<nat>)
    ensures r.Some? <==> FindByKey(subs, key).Some?
    ensures r.Some? ==>
      var i := FindByKey(subs, key).value;
      r.value < |subs| && i <= r.value && SameExercise(subs[r.value], subs[i])
      && forall j :: r.value < j < |subs| ==> !SameExercise(subs[j], subs[i])
  {
    match FindByKey(subs, key)
    case None => None
    case Some(i) => LastIndex(subs, (s: Submission) => SameExercise(s, subs[i]))
  }

  /** `post '/submissions/:key/hibernate'`: ownership is checked on the target, only its state changes. */
  method Hibernate(db: Database, user: User, key: string) returns (o: Outcome)
    modifies db`submissions, db`log
    ensures UniqueKeys(old(db.submissions)) ==> UniqueKeys(db.submissions)
    ensures user.guest ==> o == LoginRequired(Some(LOGIN_SHORT)) && unchanged(db)
    ensures !user.guest && HibernateTarget(old(db.submissions), key).None? ==>
      o == ServerError && unchanged(db)
    ensures (!user.guest && HibernateTarget(old(db.submissions), key).Some?
      && !Owns(user, Some(old(db.submissions)[HibernateTarget(old(db.submissions), key).value]))) ==>
      o == Redirect(Notice("Only the author may hibernate this exercise."), SubmissionPath(key)) && unchanged(db)
    ensures (!user.guest && HibernateTarget(old(db.submissions), key).Some?
      && Owns(user, Some(old(db.submissions)[HibernateTarget(old(db.submissions), key).value]))) ==>
      var t := HibernateTarget(old(db.submissions), key).value;
      var s := old(db.submissions)[t];
      db.submissions == old(db.submissions)[t := s.(state := Hibernating)]
      && o == Redirect(Success(s.name + " in " + s.language + " is now hibernating."), "/")
      && db.log == old(db.log) + [UserExerciseUpdated(s.userId, s.language, s.slug)]
  {
    if user.guest {
      return LoginRequired(Some(LOGIN_SHORT));
    }
    var target := HibernateTarget(db.submissions, key);
    if target.None? {
      return ServerError;
    }
    var t := target.value;
    var submission := db.submissions[t];
    if !Owns(user, Some(submission)) {
      return Redirect(Notice("Only the author may hibernate this exercise."), SubmissionPath(key));
    }
    submission := submission.(state := Hibernating);
    db.submissions := db.submissions[t := submission];
    db.log := db.log + [UserExerciseUpdated(submission.userId, submission.language, submission.slug)];
    o := Redirect(Success(submission.name + " in " + submission.language + " is now hibernating."), "/");
  }

  // ---------------------------------------------------------------------
  // Delete

  /** `submission.prior`: the row its prior key names, if there is one. */
  function PriorIndex(subs: seq<Submission>, s: Submission): (r: Option<nat>)
    ensures r.Some? ==> s.prior.Some? && r.value < |subs| && subs[r.value].key == s.prior.value
    ensures r.None? <==> s.prior.None? || forall j :: 0 <= j < |subs| ==> subs[j].key != s.prior.value
  {
    match s.prior
    case None => None
    case Some(k) => FindByKey(subs, k)
  }

  /** Where row `j` of the old table sits once row `i` is removed. */
  function Shifted(j: nat, i: nat): nat
    requires j != i
  {
    if j < i then j else j - 1
  }

  /** Lines 132-135: a pending deletion sets its prior, when there is one, back to pending; only that row's state changes. */
  function RestorePrior(subs: seq<Submission>, i: nat): (r: seq<Submission>)
    requires i < |subs|
    ensures |r| == |subs|
    ensures forall j :: 0 <= j < |subs| ==>
      r[j] == (if Some(j) == PriorIndex(subs, subs[i]) && subs[i].state == Pending
               then subs[j].(state := Pending) else subs[j])
  {
    match PriorIndex(subs, subs[i])
    case Some(j) => if subs[i].state == Pending then subs[j := subs[j].(state := Pending)] else subs
    case None => subs
  }

  /** `destroy`: the table without row `i`, the others in their order. */
  function Remove(rows: seq<Submission>, i: nat): (r: seq<Submission>)
    requires i < |rows|
    ensures |r| == |rows| - 1
    ensures forall j :: 0 <= j < |rows| && j != i ==> r[Shifted(j, i)] == rows[j]
    ensures forall k :: 0 <= k < |r| ==> r[k] in rows[..i] + rows[i + 1..]
  {
    rows[..i] + rows[i + 1..]
  }

  /**
   * Lines 131-136: the prior becomes pending when the deleted submission was
   * pending, then the deleted row is removed; every other row stays as it was.
   */
  function AfterDelete(subs: seq<Submission>, i: nat): (r: seq<Submission>)
    requires i < |subs|
    ensures |r| == |subs| - 1
  {
    Remove(RestorePrior(subs, i), i)
  }

  /** Every row but the deleted one survives; only the restored prior changes, and only its state. */
  lemma AfterDeleteRows(subs: seq<Submission>, i: nat)
    requires i < |subs|
    ensures forall j :: 0 <= j < |subs| && j != i ==>
      AfterDelete(subs, i)[Shifted(j, i)]
      == (if Some(j) == PriorIndex(subs, subs[i]) && subs[i].state == Pending
          then subs[j].(state := Pending) else subs[j])
  {
    var restored := RestorePrior(subs, i);
    forall j | 0 <= j < |subs| && j != i
      ensures AfterDelete(subs, i)[Shifted(j, i)] == restored[j]
    {
    }
  }

  /** Where row `k` of the table without row `i` came from. */
  function Origin(k: nat, i: nat): nat
  {
    if k < i then k else k + 1
  }

  lemma AfterDeleteRow(subs: seq<Submission>, i: nat, k: nat)
    requires i < |subs| && k < |subs| - 1
    ensures Origin(k, i) < |subs| && Origin(k, i) != i
    ensures AfterDelete(subs, i)[k].key == subs[Origin(k, i)].key
  {
    assert Shifted(Origin(k, i), i) == k;
  }

  /** Deleting keeps the keys distinct and takes the deleted key out of the table. */
  lemma {:induction false} AfterDeleteKeys(subs: seq<Submission>, i: nat)
    requires i < |subs| && UniqueKeys(subs)
    ensures UniqueKeys(AfterDelete(subs, i))
    ensures forall k :: 0 <= k < |AfterDelete(subs, i)| ==> AfterDelete(subs, i)[k].key != subs[i].key
  {
    var r := AfterDelete(subs, i);
    forall k | 0 <= k < |r|
      ensures r[k].key != subs[i].key
    {
      AfterDeleteRow(subs, i, k);
      assert Origin(k, i) < i || i < Origin(k, i);
    }
    forall a, b | 0 <= a < b < |r|
      ensures r[a].key != r[b].key
    {
      AfterDeleteRow(subs, i, a);
      AfterDeleteRow(subs, i, b);
      assert Origin(a, i) < Origin(b, i);
    }
  }

  /**
   * Lines 130-137, once the guards have passed: the version is taken back,
   * the prior restored, row `i` removed and the user exercise refreshed.
   */
  method Destroy(db: Database, i: nat)
    requires i < |db.submissions|
    modifies db`submissions, db`log
    ensures db.submissions == AfterDelete(old(db.submissions), i)
    ensures var s := old(db.submissions)[i];
      db.log == old(db.log) + [VersionDecremented(s.key), UserExerciseUpdated(s.userId, s.language, s.slug)]
  {
    ghost var before := db.submissions;
    ghost var log0 := db.log;
    var submission := db.submissions[i];
    var decremented := VersionDecremented(submission.key);
    db.log := db.log + [decremented];
    var prior := PriorIndex(db.submissions, submission);
    if prior.Some? && submission.state == Pending {
      var j := prior.value;
      db.submissions := db.submissions[j := db.submissions[j].(state := Pending)];
    }
    assert db.submissions == RestorePrior(before, i);
    db.submissions := db.submissions[..i] + db.submissions[i + 1..];
    var updated := UserExerciseUpdated(submission.userId, submission.language, submission.slug);
    db.log := db.log + [updated];
    assert db.log == log0 + [decremented, updated];
  }

  /** `delete '/submissions/:key'`. */
  method Delete(db: Database, user: User, key: string) returns (o: Outcome)
    modifies db`submissions, db`log
    ensures user.guest ==> o == LoginRequired(None) && unchanged(db)
    ensures !user.guest && FindByKey(old(db.submissions), key).None? ==>
      o == Redirect(NoFlash, "/") && unchanged(db)
    ensures (!user.guest && FindByKey(old(db.submissions), key).Some?
      && !Owns(user, Some(old(db.submissions)[FindByKey(old(db.submissions), key).value]))) ==>
      o == Redirect(Notice("Only the author may delete the exercise."), "/") && unchanged(db)
    ensures (!user.guest && FindByKey(old(db.submissions), key).Some?
      && Owns(user, Some(old(db.submissions)[FindByKey(old(db.submissions), key).value]))) ==>
      var i := FindByKey(old(db.submissions), key).value;
      var s := old(db.submissions)[i];
      db.submissions == AfterDelete(old(db.submissions), i)
      && o == Redirect(NoFlash, "/")
      && db.log == old(db.log) + [VersionDecremented(key), UserExerciseUpdated(s.userId, s.language, s.slug)]
  {
    if user.guest {
      return LoginRequired(None);
    }
    var found := FindByKey(db.submissions, key);
    if found.None? {
      return Redirect(NoFlash, "/");
    }
    var i := found.value;
    var submission := db.submissions[i];
    if !Owns(user, Some(submission)) {
      return Redirect(Notice("Only the author may delete the exercise."), "/");
    }
    Destroy(db, i);
    o := Redirect(NoFlash, "/");
  }
}
