/**
 * The command-line client's API (api/v1/routes/iterations.rb): marking an
 * exercise skipped, submitting an iteration, and restoring the latest
 * submissions. Each handler returns the response it would halt or render with.
 */
module Iterations {
  import opened Wrappers
  import opened Store
  import LegacyPath
  import opened ExerciseOrder

  /** One file of a solution, `path => code`; a legacy payload may leave either nil. */
  datatype Entry = Entry(path: Option<string>, code: Option<string>)

  /** The fields of the JSON body as `JSON.parse` yields them (nil as None). */
  datatype Payload = Payload(
    key: Option<string>,
    solution: Option<seq<Entry>>,
    path: Option<string>,
    code: Option<string>,
    language: Option<string>,
    problem: Option<string>,
    comment: Option<string>)

  /** The raw body, its parsed fields, `request.url` and `request.path`. */
  datatype Request = Request(body: string, data: Payload, url: string, path: string)

  datatype Iteration = Iteration(
    solution: seq<Entry>,
    language: Option<string>,
    problem: Option<string>,
    comment: Option<string>)

  /** A user bound to an iteration. */
  datatype Attempt = Attempt(user: User, iteration: Iteration)

  /** What `attempt.submission` exposes once saved. */
  datatype Saved = Saved(key: string, version: nat)

  /**
   * `Attempt#track`, `#slug`, `#valid?`, `#duplicate?` and `#save`, whose code
   * is not part of this model: track and slug are whatever the attempt reports.
   */
  datatype Services = Services(
    track: Attempt -> Option<string>,
    slug: Attempt -> Option<string>,
    valid: Attempt -> bool,
    duplicate: Attempt -> bool,
    save: Attempt -> Saved)

  /** Calls the submit handler makes into collaborators, in order. */
  datatype Effect =
    | Save(attempt: Attempt)                                      // attempt.save
    | Authorize(userId: nat, key: string)                         // ACL.authorize for the saved submission's problem
    | NotifyEveryone(key: string, kind: string, actorId: nat)     // Notify.everyone
    | Subscribe(userId: nat, key: string)                         // ConversationSubscription.join
    | Analyze(key: string)                                        // Jobs::Analyze.perform_async
    | Hello(key: string, version: nat)                            // Jobs::Hello.perform_async

  datatype Response =
    | ErrorJson(status: nat, error: string)    // halt status, { error: ... }.to_json
    | PlainText(status: nat, text: string)     // halt status, "..."
    | NoContent                                // halt 204
    | Created(submission: Saved, domain: string)  // status 201, pg :attempt
    | Listing(submissions: seq<Submission>)    // pg :iterations
    | ServerError                              // an exception escapes the handler

  const EMPTY_BODY := "must send key and code as json"
  const UPGRADE := "please upgrade your exercism command-line client"
  const DUPLICATE := "duplicate of previous iteration"
  const BAD_KEY := "Please double-check your exercism API key."
  const UNKNOWN_KEY_PREFIX := "unknown api key '"
  const UNKNOWN_KEY_SUFFIX := "', please check http://exercism.io/account/key and reconfigure"

  /** `"#{x}"` and `"%s" % x`: nil interpolates as the empty string. */
  function Text(x: Option<string>): string
  {
    if x.Some? then x.value else ""
  }

  function UnknownKeyMessage(key: Option<string>): (m: string)
    ensures |m| == |UNKNOWN_KEY_PREFIX| + |Text(key)| + |UNKNOWN_KEY_SUFFIX|
    ensures m[..|UNKNOWN_KEY_PREFIX|] == UNKNOWN_KEY_PREFIX
    ensures m[|UNKNOWN_KEY_PREFIX|..|m| - |UNKNOWN_KEY_SUFFIX|] == Text(key)
    ensures m[|m| - |UNKNOWN_KEY_SUFFIX|..] == UNKNOWN_KEY_SUFFIX
  {
    UNKNOWN_KEY_PREFIX + Text(key) + UNKNOWN_KEY_SUFFIX
  }

  /** The 401 message echoes the key: two keys with the same message have the same text. */
  lemma UnknownKeyMessageEchoesKey(k1: Option<string>, k2: Option<string>)
    requires UnknownKeyMessage(k1) == UnknownKeyMessage(k2)
    ensures Text(k1) == Text(k2)
  {
    var m := UnknownKeyMessage(k1);
    var p, s := |UNKNOWN_KEY_PREFIX|, |UNKNOWN_KEY_SUFFIX|;
    assert m[p..|m| - s] == Text(k1);
    assert UnknownKeyMessage(k2)[p..|m| - s] == Text(k2);
  }

  /** The 400 message echoes the track, the slug and the path, in that order. */
  function UnknownProblemMessage(track: Option<string>, slug: Option<string>, path: Option<string>): (m: string)
    ensures |m| == 41 + |Text(track)| + |Text(slug)| + |Text(path)|
    ensures m[..24 + |Text(track)|] == "unknown problem (track: " + Text(track)
    ensures m[24 + |Text(track)|..] == ", slug: " + Text(slug) + ", path: " + Text(path) + ")"
  {
    var a := "unknown problem (track: " + Text(track);
    var rest := ", slug: " + Text(slug) + ", path: " + Text(path) + ")";
    assert (a + rest)[..|a|] == a && (a + rest)[|a|..] == rest;
    a + rest
  }

  /** The slug follows the track, and the path follows the slug. */
  lemma UnknownProblemEchoes(track: Option<string>, slug: Option<string>, path: Option<string>)
    ensures var m, t, u, p := UnknownProblemMessage(track, slug, path), |Text(track)|, |Text(slug)|, |Text(path)|;
      && m[24..24 + t] == Text(track)
      && m[32 + t..32 + t + u] == Text(slug)
      && m[40 + t + u..40 + t + u + p] == Text(path)
  {
    EchoesTrack(track, slug, path);
    EchoesSlug(track, slug, path);
    EchoesPath(track, slug, path);
  }

  lemma EchoesTrack(track: Option<string>, slug: Option<string>, path: Option<string>)
    ensures UnknownProblemMessage(track, slug, path)[24..24 + |Text(track)|] == Text(track)
  {
    var m, t := UnknownProblemMessage(track, slug, path), |Text(track)|;
    Within("unknown problem (track: ", Text(track), 0, t);
    assert m[24..24 + t] == m[..24 + t][24..24 + t];
  }

  lemma EchoesSlug(track: Option<string>, slug: Option<string>, path: Option<string>)
    ensures var t, u := |Text(track)|, |Text(slug)|;
      UnknownProblemMessage(track, slug, path)[32 + t..32 + t + u] == Text(slug)
  {
    var m, t, u := UnknownProblemMessage(track, slug, path), |Text(track)|, |Text(slug)|;
    var b := ", slug: " + Text(slug);
    var c := ", path: " + Text(path) + ")";
    assert m[24 + t..] == b + c;
    Within(", slug: ", Text(slug), 0, u);
    assert m[32 + t..32 + t + u] == (b + c)[8..8 + u];
  }

  lemma EchoesPath(track: Option<string>, slug: Option<string>, path: Option<string>)
    ensures var t, u, p := |Text(track)|, |Text(slug)|, |Text(path)|;
      UnknownProblemMessage(track, slug, path)[40 + t + u..40 + t + u + p] == Text(path)
  {
    var m, t, u, p := UnknownProblemMessage(track, slug, path), |Text(track)|, |Text(slug)|, |Text(path)|;
    var b := ", slug: " + Text(slug);
    var c := ", path: " + Text(path) + ")";
    assert m[24 + t..] == b + c;
    Within(b, c, 8, 8 + p);
    Within(", path: ", Text(path) + ")", 0, p);
    assert (Text(path) + ")")[0..p] == Text(path);
    assert m[40 + t + u..40 + t + u + p] == (b + c)[16 + u..16 + u + p];
  }

  /** Slicing the right operand of a concatenation. */
  lemma Within(a: string, b: string, i: nat, j: nat)
    requires i <= j <= |b|
    ensures (a + b)[|a| + i..|a| + j] == b[i..j]
  {
  }

  function UnknownExerciseMessage(language: string, slug: string): (m: string)
    ensures |m| == 65 + |slug| + |language|
    ensures m[..10] == "Exercise '" && m[10..10 + |slug|] == slug
    ensures m[10 + |slug|..25 + |slug|] == "' in language '"
    ensures m[25 + |slug|..25 + |slug| + |language|] == language
  {
    var a := "Exercise '" + slug;
    var b := a + "' in language '" + language;
    var c := b + "' doesn't exist. " + "Maybe you mispelled it?";
    assert c[..|b|] == b && b[..|a|] == a;
    c
  }

  // ---------------------------------------------------------------------
  // Submitting an iteration

  /** `User.where(key: data['key']).first`. */
  function FindUser(users: seq<User>, key: Option<string>): (r: Option<User>)
    ensures r.Some? ==> r.value in users && r.value.key == key
    ensures r.None? <==> forall j :: 0 <= j < |users| ==> users[j].key != key
  {
    match FirstIndex(users, (u: User) => u.key == key)
    case Some(i) => Some(users[i])
    case None => None
  }

  /** Lines 59-62: the given solution, else the one file `{path => code}`. */
  function DefaultedSolution(data: Payload): (r: seq<Entry>)
    ensures data.solution.Some? ==> r == data.solution.value
    ensures data.solution.None? ==> |r| == 1 && r[0].path == data.path && r[0].code == data.code
  {
    if data.solution.None? then [Entry(data.path, data.code)] else data.solution.value
  }

  /** `data['path'] || solution.first.first`; None stands for calling a method on nil. */
  function LegacySource(data: Payload, solution: seq<Entry>): (r: Option<string>)
    ensures data.path.Some? ==> r == data.path
    ensures data.path.None? ==> (r.Some? <==> solution != [] && solution[0].path.Some?)
    ensures data.path.None? && r.Some? ==> r == solution[0].path
  {
    if data.path.Some? then data.path
    else if solution == [] then None
    else solution[0].path
  }

  /** Where the fields stand after lines 59-76. */
  datatype Resolution =
    | Resolved(data: Payload, solution: seq<Entry>)
    | NoPath         // the legacy path is nil: the handler raises
    | NeedsUpgrade   // fewer than three segments

  /**
   * The request's fields once the solution is defaulted and, for an old
   * client that sends no language, the language, problem and path are taken
   * from the legacy path.
   */
  function ResolveFields(data: Payload): (r: Resolution)
    ensures data.language.Some? ==> r == Resolved(data, DefaultedSolution(data))
    ensures r.Resolved? ==> r.solution == DefaultedSolution(data)
    ensures r.Resolved? ==> r.data.language.Some?
    ensures r.Resolved? ==> r.data.key == data.key && r.data.comment == data.comment
    ensures data.language.None? ==>
      match LegacySource(data, DefaultedSolution(data))
      case None => r == NoPath
      case Some(p) =>
        match LegacyPath.Parse(p)
        case None => r == NeedsUpgrade
        case Some(parts) =>
          r.Resolved? && r.data.language == Some(parts.language)
          && r.data.problem == Some(parts.problem) && r.data.path == Some(parts.path)
  {
    var solution := DefaultedSolution(data);
    if data.language.Some? then Resolved(data, solution)
    else match LegacySource(data, solution)
      case None => NoPath
      case Some(p) =>
        match LegacyPath.Parse(p)
        case None => NeedsUpgrade
        case Some(parts) =>
          Resolved(data.(language := Some(parts.language), problem := Some(parts.problem),
                         path := Some(parts.path)), solution)
  }

  /** An old Windows client's single-file payload resolves to its language, problem and relative path. */
  lemma ResolveLegacyExample(data: Payload)
    requires data.language.None? && data.solution.None?
    requires data.path == Some("ruby\\two-fer\\lib\\x.rb")
    ensures ResolveFields(data).Resolved?
    ensures ResolveFields(data).data.language == Some("ruby")
    ensures ResolveFields(data).data.problem == Some("two-fer")
    ensures ResolveFields(data).data.path == Some("lib/x.rb")
    ensures ResolveFields(data).solution == [Entry(data.path, data.code)]
  {
    LegacyPath.ParseBackslashExample(data.path.value);
  }

  /** Lines 107-112: analysis for ruby/hamming and every go exercise, hello for hello-world, independently. */
  function JobsFor(track: Option<string>, slug: Option<string>, saved: Saved): (jobs: seq<Effect>)
    ensures Analyze(saved.key) in jobs <==> (track == Some("ruby") && slug == Some("hamming")) || track == Some("go")
    ensures Hello(saved.key, saved.version) in jobs <==> slug == Some("hello-world")
    ensures forall e :: e in jobs ==> e == Analyze(saved.key) || e == Hello(saved.key, saved.version)
    ensures |jobs| == (if (track == Some("ruby") && slug == Some("hamming")) || track == Some("go") then 1 else 0)
                      + (if slug == Some("hello-world") then 1 else 0)
    ensures |jobs| == 2 ==> jobs[0] == Analyze(saved.key)
  {
    (if (track == Some("ruby") && slug == Some("hamming")) || track == Some("go") then [Analyze(saved.key)] else [])
    + (if slug == Some("hello-world") then [Hello(saved.key, saved.version)] else [])
  }

  predicate EndsWith(s: string, suffix: string)
  {
    |suffix| <= |s| && s[|s| - |suffix|..] == suffix
  }

  /** Line 117: the request URL with the request path cut off its end, when it ends with it. */
  function StripSuffix(url: string, suffix: string): (r: string)
    ensures EndsWith(url, suffix) ==> r + suffix == url
    ensures !EndsWith(url, suffix) ==> r == url
  {
    if EndsWith(url, suffix) then
      assert url[..|url| - |suffix|] + url[|url| - |suffix|..] == url;
      url[..|url| - |suffix|]
    else url
  }

  /** The calls that follow a successful save, in the handler's order. */
  function SuccessEffects(svc: Services, attempt: Attempt, saved: Saved): (r: seq<Effect>)
    ensures |r| == 4 + |JobsFor(svc.track(attempt), svc.slug(attempt), saved)|
    ensures r[0] == Save(attempt) && r[1] == Authorize(attempt.user.id, saved.key)
    ensures r[2] == NotifyEveryone(saved.key, "iteration", attempt.user.id)
    ensures r[3] == Subscribe(attempt.user.id, saved.key)
    ensures r[4..] == JobsFor(svc.track(attempt), svc.slug(attempt), saved)
  {
    [Save(attempt),
     Authorize(attempt.user.id, saved.key),
     NotifyEveryone(saved.key, "iteration", attempt.user.id),
     Subscribe(attempt.user.id, saved.key)]
    + JobsFor(svc.track(attempt), svc.slug(attempt), saved)
  }

  /**
   * `post '/user/assignments'`: the checks in their order, each ending the
   * request; only an accepted iteration is saved and followed by the calls
   * to collaborators.
   */
  method Submit(db: Database, req: Request, svc: Services) returns (r: Response, effects: seq<Effect>)
    ensures req.body == [] ==> r == ErrorJson(400, EMPTY_BODY) && effects == []
    ensures req.body != [] && FindUser(db.users, req.data.key).None? ==>
      r == ErrorJson(401, UnknownKeyMessage(req.data.key)) && effects == []
    ensures req.body != [] && FindUser(db.users, req.data.key).Some? ==>
      var user := FindUser(db.users, req.data.key).value;
      match ResolveFields(req.data)
      case NoPath => r == ServerError && effects == []
      case NeedsUpgrade => r == PlainText(400, UPGRADE) && effects == []
      case Resolved(data, solution) =>
        var attempt := Attempt(user, Iteration(solution, data.language, data.problem, data.comment));
        if !svc.valid(attempt) then
          r == ErrorJson(400, UnknownProblemMessage(svc.track(attempt), svc.slug(attempt), data.path)) && effects == []
        else if svc.duplicate(attempt) then
          r == ErrorJson(400, DUPLICATE) && effects == []
        else
          r == Created(svc.save(attempt), StripSuffix(req.url, req.path))
          && effects == SuccessEffects(svc, attempt, svc.save(attempt))
    ensures r.Created? <==> effects != []
    ensures effects != [] ==> effects[0].Save?
  {
    effects := [];
    if req.body == [] {
      r := ErrorJson(400, EMPTY_BODY);
      return;
    }
    var data := req.data;
    var found := FindUser(db.users, data.key);
    if found.None? {
      r := ErrorJson(401, UnknownKeyMessage(data.key));
      return;
    }
    var user := found.value;

    var solution := data.solution;
    if solution.None? {
      solution := Some([Entry(data.path, data.code)]);
    }

    // The legacy client sends no language: recover it from the path.
    if data.language.None? {
      var path: string;
      if data.path.Some? {
        path := data.path.value;
      } else if solution.value != [] && solution.value[0].path.Some? {
        path := solution.value[0].path.value;
      } else {
        r := ServerError;
        return;
      }
      path := LegacyPath.StripLeadingSlash(path);
      var segments := LegacyPath.Split(path);
      if |segments| < 3 {
        r := PlainText(400, UPGRADE);
        return;
      }
      data := data.(language := Some(segments[0]));
      data := data.(problem := Some(segments[1]));
      data := data.(path := Some(LegacyPath.Join(segments[2..])));
    }

    var attempt := Attempt(user, Iteration(solution.value, data.language, data.problem, data.comment));
    if !svc.valid(attempt) {
      r := ErrorJson(400, UnknownProblemMessage(svc.track(attempt), svc.slug(attempt), data.path));
      return;
    }
    if svc.duplicate(attempt) {
      r := ErrorJson(400, DUPLICATE);
      return;
    }
    var saved := svc.save(attempt);
    effects := [Save(attempt)];
    effects := effects + [Authorize(user.id, saved.key)];
    effects := effects + [NotifyEveryone(saved.key, "iteration", user.id)];
    effects := effects + [Subscribe(user.id, saved.key)];
    effects := effects + JobsFor(svc.track(attempt), svc.slug(attempt), saved);
    assert effects == SuccessEffects(svc, attempt, saved);
    r := Created(saved, StripSuffix(req.url, req.path));
  }

  // ---------------------------------------------------------------------
  // Skipping an exercise

  /** `UserExercise.where(user_id:, language:, slug:).first`, as an index. */
  function FindExercise(rows: seq<UserExercise>, userId: nat, language: string, slug: string): (r: Option<nat>)
    ensures r.Some? ==>
      (r.value < |rows| && rows[r.value].userId == userId
       && rows[r.value].language == language && rows[r.value].slug == slug)
    ensures r.Some? ==> forall j :: 0 <= j < r.value ==>
      !(rows[j].userId == userId && rows[j].language == language && rows[j].slug == slug)
    ensures r.None? <==> forall j :: 0 <= j < |rows| ==>
      !(rows[j].userId == userId && rows[j].language == language && rows[j].slug == slug)
  {
    FirstIndex(rows, (e: UserExercise) => e.userId == userId && e.language == language && e.slug == slug)
  }

  /**
   * Lines 24-36: the user's exercise is found, or created with no
   * iterations, and its `skipped_at` is set; no other row changes.
   */
  function Skipped(rows: seq<UserExercise>, userId: nat, language: string, slug: string, now: int): (r: seq<UserExercise>)
    ensures FindExercise(rows, userId, language, slug).Some? ==> |r| == |rows|
    ensures FindExercise(rows, userId, language, slug).None? ==>
      r == rows + [UserExercise(userId, language, slug, 0, Some(now))]
    ensures forall j :: 0 <= j < |rows| && Some(j) != FindExercise(rows, userId, language, slug) ==> r[j] == rows[j]
    ensures FindExercise(r, userId, language, slug).Some?
    ensures var i := FindExercise(r, userId, language, slug).value;
      r[i].skippedAt == Some(now)
      && r[i].iterationCount == (if i < |rows| then rows[i].iterationCount else 0)
    ensures FindExercise(rows, userId, language, slug).Some? ==>
      var i := FindExercise(rows, userId, language, slug).value;
      r[i] == rows[i].(skippedAt := Some(now))
  {
    match FindExercise(rows, userId, language, slug)
    case Some(i) =>
      var r := rows[i := rows[i].(skippedAt := Some(now))];
      assert FindExercise(r, userId, language, slug) == Some(i) by {
        forall j | 0 <= j < i
          ensures !(r[j].userId == userId && r[j].language == language && r[j].slug == slug)
        {
          assert r[j] == rows[j];
        }
        assert r[i].userId == userId && r[i].language == language && r[i].slug == slug;
        assert FindExercise(r, userId, language, slug).Some?;
      }
      r
    case None =>
      var r := rows + [UserExercise(userId, language, slug, 0, Some(now))];
      assert FindExercise(r, userId, language, slug) == Some(|rows|) by {
        var p := (e: UserExercise) => e.userId == userId && e.language == language && e.slug == slug;
        forall j | 0 <= j < |rows| ensures !p(r[j]) { assert r[j] == rows[j]; }
        assert p(r[|rows|]);
      }
      r
  }

  /** `post '/iterations/:language/:slug/skip'`: guest first, then the exercise, then the record. */
  method Skip(db: Database, user: User, language: string, slug: string,
              catalog: (string, string) -> bool, now: int) returns (r: Response)
    modifies db`exercises
    ensures user.guest ==> r == ErrorJson(401, BAD_KEY) && unchanged(db)
    ensures !user.guest && !catalog(language, slug) ==>
      r == ErrorJson(404, UnknownExerciseMessage(language, slug)) && unchanged(db)
    ensures !user.guest && catalog(language, slug) ==>
      r == NoContent
      && db.exercises == Skipped(old(db.exercises), user.id, language, slug, now)
      && db.users == old(db.users) && db.submissions == old(db.submissions) && db.log == old(db.log)
  {
    if user.guest {
      return ErrorJson(401, BAD_KEY);
    }
    if !catalog(language, slug) {
      return ErrorJson(404, UnknownExerciseMessage(language, slug));
    }
    var found := FindExercise(db.exercises, user.id, language, slug);
    var i: nat;
    if found.Some? {
      i := found.value;
    } else {
      // first_or_initialize(iteration_count: 0), then save!
      db.exercises := db.exercises + [UserExercise(user.id, language, slug, 0, None)];
      i := |db.exercises| - 1;
    }
    // touch(:skipped_at)
    db.exercises := db.exercises[i := db.exercises[i].(skippedAt := Some(now))];
    r := NoContent;
  }

  // ---------------------------------------------------------------------
  // Restoring the latest submissions

  /** The index of `e.submissions.last`: a row of the exercise with no later one. */
  function LastSubmissionAt(subs: seq<Submission>, e: UserExercise): (r: Option<nat>)
    ensures r.Some? ==> r.value < |subs| && BelongsTo(subs[r.value], e)
    ensures r.Some? ==> forall j :: r.value < j < |subs| ==> !BelongsTo(subs[j], e)
    ensures r.None? <==> forall j :: 0 <= j < |subs| ==> !BelongsTo(subs[j], e)
  {
    LastIndex(subs, (s: Submission) => BelongsTo(s, e))
  }

  /** `e.submissions.last`: the row at `LastSubmissionAt`, the latest of the exercise. */
  function LastSubmission(subs: seq<Submission>, e: UserExercise): (r: Option<Submission>)
    ensures r.Some? ==> r.value in subs && BelongsTo(r.value, e)
    ensures r.None? <==> forall j :: 0 <= j < |subs| ==> !BelongsTo(subs[j], e)
    ensures r.Some? <==> LastSubmissionAt(subs, e).Some?
    ensures r.Some? ==> r.value == subs[LastSubmissionAt(subs, e).value]
  {
    match LastSubmissionAt(subs, e)
    case Some(i) => Some(subs[i])
    case None => None
  }

  /** `current_user.exercises`. */
  function UserExercises(rows: seq<UserExercise>, userId: nat): (r: seq<UserExercise>)
    ensures forall e :: e in r <==> e in rows && e.userId == userId
    ensures |r| <= |rows|
    ensures forall e :: multiset(r)[e] == if e.userId == userId then multiset(rows)[e] else 0
  {
    if rows == [] then []
    else
      assert rows == [rows[0]] + rows[1..];
      (if rows[0].userId == userId then [rows[0]] else []) + UserExercises(rows[1..], userId)
  }

  /** `exercises.map { |e| e.submissions.last }.compact`. */
  function Compact(exs: seq<UserExercise>, subs: seq<Submission>): (r: seq<Submission>)
    ensures |r| <= |exs|
  {
    if exs == [] then []
    else (match LastSubmission(subs, exs[0]) case Some(s) => [s] case None => []) + Compact(exs[1..], subs)
  }

  /** Every submission in the compacted list is the last one of some exercise. */
  lemma {:induction false} CompactFrom(exs: seq<UserExercise>, subs: seq<Submission>)
    ensures forall k :: 0 <= k < |Compact(exs, subs)| ==>
      exists j :: 0 <= j < |exs| && LastSubmission(subs, exs[j]) == Some(Compact(exs, subs)[k])
  {
    if exs != [] {
      var tail := Compact(exs[1..], subs);
      CompactFrom(exs[1..], subs);
      var r := Compact(exs, subs);
      var head := match LastSubmission(subs, exs[0]) case Some(s) => [s] case None => [];
      assert r == head + tail;
      forall k | 0 <= k < |r| ensures exists j :: 0 <= j < |exs| && LastSubmission(subs, exs[j]) == Some(r[k]) {
        if LastSubmission(subs, exs[0]).Some? && k == 0 {
          assert LastSubmission(subs, exs[0]) == Some(r[k]);
        } else {
          var m := if LastSubmission(subs, exs[0]).Some? then k - 1 else k;
          assert r[k] == tail[m];
          var j :| 0 <= j < |exs[1..]| && LastSubmission(subs, exs[1..][j]) == Some(tail[m]);
          assert exs[j + 1] == exs[1..][j];
          assert LastSubmission(subs, exs[j + 1]) == Some(r[k]);
        }
      }
    } else {
      assert Compact(exs, subs) == [];
    }
  }

  /**
   * `f` names, strictly increasing, the exercise each entry of `r` is the
   * last submission of, and it names every exercise that has a submission.
   */
  predicate Indexes(f: seq<nat>, exs: seq<UserExercise>, subs: seq<Submission>, r: seq<Submission>)
  {
    && |f| == |r|
    && (forall k :: 0 <= k < |f| ==> f[k] < |exs| && LastSubmission(subs, exs[f[k]]) == Some(r[k]))
    && (forall a, b :: 0 <= a < b < |f| ==> f[a] < f[b])
    && (forall j :: 0 <= j < |exs| && LastSubmission(subs, exs[j]).Some? ==> j in f)
  }

  function Shift(g: seq<nat>): (r: seq<nat>)
    ensures |r| == |g| && forall k :: 0 <= k < |g| ==> r[k] == g[k] + 1
  {
    seq(|g|, k requires 0 <= k < |g| => g[k] + 1)
  }

  /** Indexes into the later exercises, moved past an exercise with no submission. */
  lemma IndexesSkip(exs: seq<UserExercise>, subs: seq<Submission>, g: seq<nat>, r: seq<Submission>)
    requires exs != [] && LastSubmission(subs, exs[0]).None?
    requires Indexes(g, exs[1..], subs, r)
    ensures Indexes(Shift(g), exs, subs, r)
  {
    SkipRows(exs, subs, g, r);
    SkipIncreasing(g);
    SkipCovers(exs, subs, g);
  }

  lemma SkipRows(exs: seq<UserExercise>, subs: seq<Submission>, g: seq<nat>, r: seq<Submission>)
    requires exs != []
    requires |g| == |r| && forall k :: 0 <= k < |g| ==> g[k] < |exs[1..]| && LastSubmission(subs, exs[1..][g[k]]) == Some(r[k])
    ensures forall k :: 0 <= k < |Shift(g)| ==>
      Shift(g)[k] < |exs| && LastSubmission(subs, exs[Shift(g)[k]]) == Some(r[k])
  {
    var f := Shift(g);
    forall k | 0 <= k < |f|
      ensures f[k] < |exs| && LastSubmission(subs, exs[f[k]]) == Some(r[k])
    {
      assert exs[1..][g[k]] == exs[f[k]];
    }
  }

  lemma SkipIncreasing(g: seq<nat>)
    requires forall a, b :: 0 <= a < b < |g| ==> g[a] < g[b]
    ensures forall a, b :: 0 <= a < b < |Shift(g)| ==> Shift(g)[a] < Shift(g)[b]
  {
  }

  lemma SkipCovers(exs: seq<UserExercise>, subs: seq<Submission>, g: seq<nat>)
    requires exs != [] && LastSubmission(subs, exs[0]).None?
    requires forall j :: 0 <= j < |exs[1..]| && LastSubmission(subs, exs[1..][j]).Some? ==> j in g
    ensures forall j :: 0 <= j < |exs| && LastSubmission(subs, exs[j]).Some? ==> j in Shift(g)
  {
    var f := Shift(g);
    forall j | 0 <= j < |exs| && LastSubmission(subs, exs[j]).Some?
      ensures j in f
    {
      assert exs[1..][j - 1] == exs[j];
      var m :| 0 <= m < |g| && g[m] == j - 1;
      assert f[m] == j;
    }
  }

  /** Indexes into the later exercises, behind the first exercise's own entry. */
  lemma IndexesCons(exs: seq<UserExercise>, subs: seq<Submission>, s: Submission, g: seq<nat>, r: seq<Submission>)
    requires exs != [] && LastSubmission(subs, exs[0]) == Some(s)
    requires Indexes(g, exs[1..], subs, r)
    ensures Indexes([0] + Shift(g), exs, subs, [s] + r)
  {
    ConsRows(exs, subs, s, g, r);
    ConsIncreasing(g);
    ConsCovers(exs, subs, g);
  }

  lemma ConsRows(exs: seq<UserExercise>, subs: seq<Submission>, s: Submission, g: seq<nat>, r: seq<Submission>)
    requires exs != [] && LastSubmission(subs, exs[0]) == Some(s)
    requires |g| == |r| && forall k :: 0 <= k < |g| ==> g[k] < |exs[1..]| && LastSubmission(subs, exs[1..][g[k]]) == Some(r[k])
    ensures forall k :: 0 <= k < |[0] + Shift(g)| ==>
      ([0] + Shift(g))[k] < |exs| && LastSubmission(subs, exs[([0] + Shift(g))[k]]) == Some(([s] + r)[k])
  {
    var h := Shift(g);
    var f := [0] + h;
    forall k | 0 <= k < |f|
      ensures f[k] < |exs| && LastSubmission(subs, exs[f[k]]) == Some(([s] + r)[k])
    {
      if k > 0 {
        assert f[k] == h[k - 1];
        assert exs[1..][g[k - 1]] == exs[f[k]];
      }
    }
  }

  lemma ConsIncreasing(g: seq<nat>)
    requires forall a, b :: 0 <= a < b < |g| ==> g[a] < g[b]
    ensures forall a, b :: 0 <= a < b < |[0] + Shift(g)| ==> ([0] + Shift(g))[a] < ([0] + Shift(g))[b]
  {
    var h := Shift(g);
    var f := [0] + h;
    forall a, b | 0 <= a < b < |f|
      ensures f[a] < f[b]
    {
      assert f[b] == h[b - 1];
      if a > 0 { assert f[a] == h[a - 1]; }
    }
  }

  lemma ConsCovers(exs: seq<UserExercise>, subs: seq<Submission>, g: seq<nat>)
    requires exs != []
    requires forall j :: 0 <= j < |exs[1..]| && LastSubmission(subs, exs[1..][j]).Some? ==> j in g
    ensures forall j :: 0 <= j < |exs| && LastSubmission(subs, exs[j]).Some? ==> j in [0] + Shift(g)
  {
    var h := Shift(g);
    var f := [0] + h;
    forall j | 0 <= j < |exs| && LastSubmission(subs, exs[j]).Some?
      ensures j in f
    {
      if j > 0 {
        assert exs[1..][j - 1] == exs[j];
        var m :| 0 <= m < |g| && g[m] == j - 1;
        assert f[m + 1] == h[m];
      } else {
        assert f[0] == j;
      }
    }
  }

  /**
   * The compacted list has exactly one entry per exercise that has a
   * submission, in the exercises' order.
   */
  lemma {:induction false} CompactIndexed(exs: seq<UserExercise>, subs: seq<Submission>) returns (f: seq<nat>)
    ensures Indexes(f, exs, subs, Compact(exs, subs))
  {
    if exs == [] {
      assert Compact(exs, subs) == [];
      f := [];
    } else {
      var g := CompactIndexed(exs[1..], subs);
      var tail := Compact(exs[1..], subs);
      match LastSubmission(subs, exs[0])
      case Some(s) =>
        assert Compact(exs, subs) == [s] + tail;
        IndexesCons(exs, subs, s, g, tail);
        f := [0] + Shift(g);
      case None =>
        assert Compact(exs, subs) == tail;
        IndexesSkip(exs, subs, g, tail);
        f := Shift(g);
    }
  }

  /** The last submission of every exercise that has one is in the compacted list. */
  lemma {:induction false} CompactCovers(exs: seq<UserExercise>, subs: seq<Submission>)
    ensures forall j :: 0 <= j < |exs| && LastSubmission(subs, exs[j]).Some? ==>
      LastSubmission(subs, exs[j]).value in Compact(exs, subs)
  {
    if exs != [] {
      CompactCovers(exs[1..], subs);
      var r := Compact(exs, subs);
      var tail := Compact(exs[1..], subs);
      assert forall x :: x in tail ==> x in r;
      forall j | 0 <= j < |exs| && LastSubmission(subs, exs[j]).Some? ensures LastSubmission(subs, exs[j]).value in r {
        if j > 0 { assert exs[j] == exs[1..][j - 1]; }
      }
    }
  }

  /** What `get '/iterations/latest'` lists for a user. */
  function LatestSubmissions(exercises: seq<UserExercise>, subs: seq<Submission>, userId: nat): (r: seq<Submission>)
    ensures |r| <= |exercises|
  {
    assert |Sort(UserExercises(exercises, userId))| == |multiset(UserExercises(exercises, userId))|;
    Compact(Sort(UserExercises(exercises, userId)), subs)
  }

  /** The compacted list keeps the (language, slug) order of the exercises. */
  lemma {:induction false} CompactOrdered(exs: seq<UserExercise>, subs: seq<Submission>)
    requires Sorted(exs)
    ensures forall i, j :: 0 <= i < j < |Compact(exs, subs)| ==>
      SubmissionLe(Compact(exs, subs)[i], Compact(exs, subs)[j])
  {
    if exs != [] {
      var tail := Compact(exs[1..], subs);
      assert Sorted(exs[1..]);
      CompactOrdered(exs[1..], subs);
      match LastSubmission(subs, exs[0])
      case None =>
        assert Compact(exs, subs) == tail;
      case Some(s) =>
        var r := [s] + tail;
        assert Compact(exs, subs) == r;
        HeadPrecedesTail(s, exs, subs);
        forall i, j | 0 <= i < j < |r| ensures SubmissionLe(r[i], r[j]) {
          assert r[j] == tail[j - 1];
          if i > 0 { assert r[i] == tail[i - 1]; }
        }
    }
  }

  /** A submission of the first exercise precedes everything compacted from the later ones. */
  lemma HeadPrecedesTail(s: Submission, exs: seq<UserExercise>, subs: seq<Submission>)
    requires Sorted(exs) && exs != [] && BelongsTo(s, exs[0])
    ensures forall k :: 0 <= k < |Compact(exs[1..], subs)| ==> SubmissionLe(s, Compact(exs[1..], subs)[k])
  {
    var tail := Compact(exs[1..], subs);
    CompactFrom(exs[1..], subs);
    forall k | 0 <= k < |tail| ensures SubmissionLe(s, tail[k]) {
      var j :| 0 <= j < |exs[1..]| && LastSubmission(subs, exs[1..][j]) == Some(tail[k]);
      assert exs[1..][j] == exs[j + 1];
      assert ExerciseLe(exs[0], exs[j + 1]);
      assert BelongsTo(tail[k], exs[j + 1]);
    }
  }

  /**
   * Lines 132-134: one submission per exercise of the user, that exercise's
   * last, none for an exercise without submissions, in (language, slug) order.
   */
  lemma LatestIsLastPerExercise(exercises: seq<UserExercise>, subs: seq<Submission>, userId: nat)
    ensures var r := LatestSubmissions(exercises, subs, userId);
      && (forall k :: 0 <= k < |r| ==>
            (r[k].userId == userId
             && exists e :: e in exercises && e.userId == userId && LastSubmission(subs, e) == Some(r[k])))
      && (forall e :: e in exercises && e.userId == userId && LastSubmission(subs, e).Some? ==>
            LastSubmission(subs, e).value in r)
      && (forall i, j :: 0 <= i < j < |r| ==> SubmissionLe(r[i], r[j]))
  {
    var mine := UserExercises(exercises, userId);
    var sorted := Sort(mine);
    assert forall e :: e in sorted <==> e in mine by {
      forall e ensures e in sorted <==> e in mine {
        assert e in sorted <==> e in multiset(sorted);
        assert e in mine <==> e in multiset(mine);
      }
    }
    var r := Compact(sorted, subs);
    CompactFrom(sorted, subs);
    CompactCovers(sorted, subs);
    forall k | 0 <= k < |r|
      ensures r[k].userId == userId
      ensures exists e :: e in exercises && e.userId == userId && LastSubmission(subs, e) == Some(r[k])
    {
      var j :| 0 <= j < |sorted| && LastSubmission(subs, sorted[j]) == Some(r[k]);
      assert sorted[j] in mine;
    }
    forall e | e in exercises && e.userId == userId && LastSubmission(subs, e).Some?
      ensures LastSubmission(subs, e).value in r
    {
      assert e in sorted;
      var j :| 0 <= j < |sorted| && sorted[j] == e;
    }
    SortSorted(mine);
    CompactOrdered(sorted, subs);
  }

  /**
   * Lines 132-134: the listing has exactly one entry per exercise of the user
   * that has a submission, taken in the sorted exercises' order.
   */
  lemma LatestOnePerExercise(exercises: seq<UserExercise>, subs: seq<Submission>, userId: nat) returns (f: seq<nat>)
    ensures Indexes(f, Sort(UserExercises(exercises, userId)), subs, LatestSubmissions(exercises, subs, userId))
  {
    f := CompactIndexed(Sort(UserExercises(exercises, userId)), subs);
  }

  /** `get '/iterations/latest'`. */
  method Latest(db: Database, user: User) returns (r: Response)
    ensures user.guest ==> r == ErrorJson(401, BAD_KEY)
    ensures !user.guest ==> r == Listing(LatestSubmissions(db.exercises, db.submissions, user.id))
  {
    if user.guest {
      return ErrorJson(401, BAD_KEY);
    }
    var mine := Sort(UserExercises(db.exercises, user.id));
    r := Listing(Compact(mine, db.submissions));
  }
}
