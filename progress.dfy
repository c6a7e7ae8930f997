/** Progress tracking: the per-video watch state machine
    (NOT_STARTED -> IN_PROGRESS -> WATCHED), quiz grading, and the
    quiz-only course completion signal.  Each service operation takes the
    store and either succeeds or returns an error with the store untouched,
    because the request's session is rolled back when an error escapes. */
module Progress {
  import opened Wrappers
  import opened Text
  import opened Models

  /** What a lookup failed to find (HTTP 404). */
  datatype Missing = VideoMissing | NotEnrolled | ProgressMissing

  /** Why a quiz cannot be graded (HTTP 400). */
  datatype Reason = NoQuiz | NoQuestions

  datatype Error = NotFound(missing: Missing) | BadRequest(reason: Reason)

  // ---------------------------------------------------------------------
  // Transitions of one progress row

  /** The `start` step: only NOT_STARTED moves, to IN_PROGRESS. */
  function Started(p: VideoProgress): (q: VideoProgress)
    ensures q.status != NotStarted
    ensures p.status == NotStarted ==> q.status == InProgress
    ensures StatusRank(q.status) >= StatusRank(p.status)
    ensures p.status != NotStarted ==> q == p
    ensures q.(status := p.status) == p
  {
    if p.status == NotStarted then p.(status := InProgress) else p
  }

  /** The heartbeat step: the reported total replaces the stored one (it may
      go down), and the row is at least IN_PROGRESS afterwards. */
  function Heartbeat(p: VideoProgress, seconds: nat): (q: VideoProgress)
    ensures q.secondsWatched == seconds
    ensures q.status == Started(p).status
    ensures q.quizScore == p.quizScore && q.isQuizPassed == p.isQuizPassed
  {
    Started(p.(secondsWatched := seconds))
  }

  /** The `complete` step: WATCHED unconditionally; a video without a quiz
      counts as passed with score 100, a video with one keeps its quiz
      result. */
  function Completed(p: VideoProgress, hasQuiz: bool): (q: VideoProgress)
    ensures q.status == Watched
    ensures q.secondsWatched == p.secondsWatched
    ensures hasQuiz ==> q.quizScore == p.quizScore && q.isQuizPassed == p.isQuizPassed
    ensures !hasQuiz ==> q.quizScore == Some(100) && q.isQuizPassed
  {
    var watched := p.(status := Watched);
    if hasQuiz then watched else watched.(isQuizPassed := true, quizScore := Some(100))
  }

  /** A quiz result overwrites the previous one, whatever it was. */
  function Graded(p: VideoProgress, score: nat, passed: bool): (q: VideoProgress)
    ensures q.quizScore == Some(score as int) && q.isQuizPassed == passed
    ensures q.status == p.status && q.secondsWatched == p.secondsWatched
  {
    p.(quizScore := Some(score as int), isQuizPassed := passed)
  }

  /** Repeating `start` changes nothing more. */
  lemma StartIdempotent(p: VideoProgress)
    ensures Started(Started(p)) == Started(p)
  {
  }

  // ---------------------------------------------------------------------
  // Quiz grading

  /** The answer-map key of question `i`: `str(i)`. */
  function AnswerKey(i: nat): string {
    NatToDecimal(i)
  }

  /** `answers.get(str(i), "")`. */
  function SubmittedAnswer(answers: map<string, string>, i: nat): string {
    if AnswerKey(i) in answers then answers[AnswerKey(i)] else ""
  }

  /** `question.get("answer", "")`. */
  function ExpectedAnswer(q: Question): string {
    match q.answer
    case Some(a) => a
    case None => ""
  }

  /** Comparison key: surrounding whitespace removed, lower case. */
  function Normalize(s: string): string {
    Lower(Strip(s))
  }

  predicate IsCorrect(questions: seq<Question>, answers: map<string, string>, i: nat)
    requires i < |questions|
  {
    Normalize(SubmittedAnswer(answers, i)) == Normalize(ExpectedAnswer(questions[i]))
  }

  /** Per-question marks, in question order. */
  function Marks(questions: seq<Question>, answers: map<string, string>): (m: seq<bool>)
    ensures |m| == |questions|
    ensures forall i :: 0 <= i < |m| ==> m[i] == IsCorrect(questions, answers, i)
  {
    seq(|questions|, i requires 0 <= i < |questions| => IsCorrect(questions, answers, i))
  }

  /** Number of `true` marks: the `correct_count += 1` loop. */
  function CountTrue(m: seq<bool>): (c: nat)
    ensures c <= |m|
  {
    if m == [] then 0 else CountTrue(m[..|m| - 1]) + (if m[|m| - 1] then 1 else 0)
  }

  /** Number of correctly answered questions. */
  function CorrectCount(questions: seq<Question>, answers: map<string, string>): nat {
    CountTrue(Marks(questions, answers))
  }

  /** The positions of the `true` marks. */
  ghost function TrueIndices(m: seq<bool>): set<nat> {
    set i: nat | i < |m| && m[i]
  }

  /** The count is the number of marked positions. */
  lemma {:induction false} CountTrueIsSize(m: seq<bool>)
    ensures CountTrue(m) == |TrueIndices(m)|
  {
    if m != [] {
      var init := m[..|m| - 1];
      CountTrueIsSize(init);
      var prev := TrueIndices(init);
      var cur := TrueIndices(m);
      assert |m| - 1 !in prev;
      if m[|m| - 1] {
        assert forall i :: i in cur <==> i in prev || i == |m| - 1;
        assert cur == prev + {|m| - 1};
      } else {
        assert forall i :: i in cur <==> i in prev;
        assert cur == prev;
      }
    }
  }

  /** The set of question indices answered correctly. */
  ghost function CorrectIndices(questions: seq<Question>, answers: map<string, string>): set<nat> {
    set i: nat | i < |questions| && IsCorrect(questions, answers, i)
  }

  /** The count is the number of correctly answered questions. */
  lemma CorrectCountIsSize(questions: seq<Question>, answers: map<string, string>)
    ensures CorrectCount(questions, answers) == |CorrectIndices(questions, answers)|
  {
    var m := Marks(questions, answers);
    CountTrueIsSize(m);
    assert TrueIndices(m) == CorrectIndices(questions, answers);
  }

  /** Grading reads only the keys "0" .. str(total - 1): extra keys in the
      answer map never change the count. */
  lemma GradingIgnoresOtherKeys(questions: seq<Question>, a: map<string, string>, b: map<string, string>)
    requires forall i: nat :: i < |questions| ==> SubmittedAnswer(a, i) == SubmittedAnswer(b, i)
    ensures CorrectCount(questions, a) == CorrectCount(questions, b)
  {
    var ma, mb := Marks(questions, a), Marks(questions, b);
    forall i | 0 <= i < |questions| ensures ma[i] == mb[i] {
      assert SubmittedAnswer(a, i) == SubmittedAnswer(b, i);
    }
    assert ma == mb;
  }

  /** Multiplying by a positive number keeps the order, both ways. */
  lemma MulLeCancel(a: int, b: int, t: int)
    requires t > 0
    ensures a * t <= b * t <==> a <= b
  {
    assert b * t - a * t == (b - a) * t;
  }

  /** Percentage score, rounded down. */
  function Score(correct: nat, total: nat): (s: nat)
    requires 0 < total && correct <= total
    ensures s <= 100
    ensures s == 100 <==> correct == total
    ensures s * total <= 100 * correct < (s + 1) * total
  {
    var s := 100 * correct / total;
    assert (s + 1) * total == s * total + total;
    assert s * total <= 100 * correct < (s + 1) * total;
    MulLeCancel(s, 100, total);
    MulLeCancel(s, 99, total);
    s
  }

  /** The pass mark: 75 percent. */
  predicate Passed(score: nat) {
    score >= 75
  }

  /** Passing is a statement about the counts alone: three quarters of the
      questions answered correctly. */
  lemma PassMark(correct: nat, total: nat)
    requires 0 < total && correct <= total
    ensures Passed(Score(correct, total)) <==> 4 * correct >= 3 * total
  {
    var s := Score(correct, total);
    MulLeCancel(75, s, total);
    MulLeCancel(s + 1, 75, total);
  }

  datatype QuizResult = QuizResult(score: nat, passed: bool, correctCount: nat, totalQuestions: nat, message: string)

  function ResultMessage(passed: bool): string {
    if passed then "Quiz passed! Great job!" else "Quiz not passed. You need 75% to pass."
  }

  /** The outcome of grading a non-empty question list. */
  function Grade(questions: seq<Question>, answers: map<string, string>): (g: QuizResult)
    requires |questions| > 0
    ensures g.totalQuestions == |questions| && g.correctCount <= g.totalQuestions
    ensures g.correctCount == |CorrectIndices(questions, answers)|
    ensures g.score <= 100
    ensures g.passed <==> 4 * g.correctCount >= 3 * g.totalQuestions
  {
    var c := CorrectCount(questions, answers);
    var s := Score(c, |questions|);
    CorrectCountIsSize(questions, answers);
    PassMark(c, |questions|);
    QuizResult(s, Passed(s), c, |questions|, ResultMessage(Passed(s)))
  }

  /** A grading example: answers that differ from the expected ones only in
      case and surrounding spaces are all correct. */
  lemma GradingExample()
    ensures
      var questions := [Question(Some("a")), Question(Some("B "))];
      var g := Grade(questions, map["0" := "A", "1" := "B"]);
      g.correctCount == 2 && g.score == 100 && g.passed
  {
    var questions := [Question(Some("a")), Question(Some("B "))];
    var answers := map["0" := "A", "1" := "B"];
    assert AnswerKey(0) == "0" && AnswerKey(1) == "1";
    assert StripRight("B ") == "B";
    assert Normalize("B ") == "b" && Normalize("B") == "b";
    assert Normalize("A") == "a" && Normalize("a") == "a";
    assert IsCorrect(questions, answers, 0) && IsCorrect(questions, answers, 1);
  }

  // ---------------------------------------------------------------------
  // Quiz data of a video

  /** `not video.has_quiz or not video.quiz_data`: no quiz to take. */
  predicate NoQuizToTake(v: Video) {
    !v.hasQuiz || v.quizData.None? || (v.quizData.value.questions.None? && !v.quizData.value.hasOtherKeys)
  }

  /** `quiz_data.get("questions", [])`. */
  function QuestionsOf(v: Video): seq<Question> {
    if v.quizData.Some? && v.quizData.value.questions.Some? then v.quizData.value.questions.value else []
  }

  // ---------------------------------------------------------------------
  // Quiz-only completion signal

  predicate ListedVideosExist(videos: map<VideoId, Video>, ids: seq<VideoId>) {
    forall i :: 0 <= i < |ids| ==> ids[i] in videos
  }

  /** `[v for v in playlist.videos if v.has_quiz]`. */
  function QuizVideos(videos: map<VideoId, Video>, ids: seq<VideoId>): (r: seq<VideoId>)
    requires ListedVideosExist(videos, ids)
    ensures ListedVideosExist(videos, r)
    ensures forall v :: v in r <==> v in ids && videos[v].hasQuiz
  {
    if ids == [] then []
    else
      var rest := QuizVideos(videos, ids[1..]);
      if videos[ids[0]].hasQuiz then [ids[0]] + rest else rest
  }

  predicate QuizPassed(progress: map<ProgressKey, VideoProgress>, ek: EnrollmentKey, v: VideoId) {
    var pk := ProgressKey(ek, v);
    pk in progress && progress[pk].isQuizPassed
  }

  /** The early-exit loop over the quiz videos. */
  function AllQuizzesPassed(progress: map<ProgressKey, VideoProgress>, ek: EnrollmentKey, ids: seq<VideoId>): (b: bool)
    ensures b <==> forall v :: v in ids ==> QuizPassed(progress, ek, v)
  {
    if ids == [] then true
    else if !QuizPassed(progress, ek, ids[0]) then false
    else AllQuizzesPassed(progress, ek, ids[1..])
  }

  /** The completion signal: false for an unknown playlist and for a
      playlist without quiz-bearing videos, otherwise whether every
      quiz-bearing video has a passed progress row. */
  function QuizCompletion(
    videos: map<VideoId, Video>, playlists: map<PlaylistId, Playlist>,
    progress: map<ProgressKey, VideoProgress>, ek: EnrollmentKey, pid: PlaylistId): bool
    requires CatalogConsistent(videos, playlists)
  {
    if pid !in playlists then false
    else
      var quiz := QuizVideos(videos, playlists[pid].videoIds);
      if quiz == [] then false else AllQuizzesPassed(progress, ek, quiz)
  }

  /** The signal as a statement about the course: it holds exactly when the
      course exists, has a quiz-bearing video, and every quiz-bearing video
      of it is passed. */
  lemma QuizCompletionMeaning(
    videos: map<VideoId, Video>, playlists: map<PlaylistId, Playlist>,
    progress: map<ProgressKey, VideoProgress>, ek: EnrollmentKey, pid: PlaylistId)
    requires CatalogConsistent(videos, playlists)
    ensures QuizCompletion(videos, playlists, progress, ek, pid) <==>
      && pid in playlists
      && (exists v :: v in playlists[pid].videoIds && videos[v].hasQuiz)
      && (forall v :: v in playlists[pid].videoIds && videos[v].hasQuiz ==> QuizPassed(progress, ek, v))
  {
    if pid in playlists {
      var quiz := QuizVideos(videos, playlists[pid].videoIds);
      if quiz != [] {
        assert quiz[0] in playlists[pid].videoIds;
      }
    }
  }

  /** Only the rows of this enrollment and this playlist's quiz videos
      matter: passing more quizzes never turns the signal off. */
  lemma QuizCompletionMonotone(
    videos: map<VideoId, Video>, playlists: map<PlaylistId, Playlist>,
    p1: map<ProgressKey, VideoProgress>, p2: map<ProgressKey, VideoProgress>, ek: EnrollmentKey, pid: PlaylistId)
    requires CatalogConsistent(videos, playlists)
    requires forall v :: QuizPassed(p1, ek, v) ==> QuizPassed(p2, ek, v)
    ensures QuizCompletion(videos, playlists, p1, ek, pid) ==> QuizCompletion(videos, playlists, p2, ek, pid)
  {
    QuizCompletionMeaning(videos, playlists, p1, ek, pid);
    QuizCompletionMeaning(videos, playlists, p2, ek, pid);
  }

  // ---------------------------------------------------------------------
  // Service operations

  /** Returns the enrollment of `key`, creating a default one if absent. */
  method GetOrCreateEnrollment(db: Database, key: EnrollmentKey) returns (e: Enrollment)
    requires db.Valid()
    modifies db`enrollments
    ensures db.Valid()
    ensures key in old(db.enrollments) ==> e == old(db.enrollments)[key] && db.enrollments == old(db.enrollments)
    ensures key !in old(db.enrollments) ==> e == NewEnrollment() && db.enrollments == old(db.enrollments)[key := e]
  {
    if key in db.enrollments {
      e := db.enrollments[key];
    } else {
      e := NewEnrollment();
      db.enrollments := db.enrollments[key := e];
    }
  }

  /** Returns the progress row of `key`, creating one at NOT_STARTED if absent. */
  method GetOrCreateProgress(db: Database, key: ProgressKey) returns (p: VideoProgress)
    requires db.Valid() && key.enrollment in db.enrollments
    modifies db`progress
    ensures db.Valid()
    ensures key in old(db.progress) ==> p == old(db.progress)[key] && db.progress == old(db.progress)
    ensures key !in old(db.progress) ==> p == NewProgress(NotStarted) && db.progress == old(db.progress)[key := p]
  {
    if key in db.progress {
      p := db.progress[key];
    } else {
      p := NewProgress(NotStarted);
      db.progress := db.progress[key := p];
    }
  }

  /** The progress row of `key` before an operation, or the default row an
      operation would create. */
  function RowOr(progress: map<ProgressKey, VideoProgress>, key: ProgressKey, initial: WatchStatus): VideoProgress {
    if key in progress then progress[key] else NewProgress(initial)
  }

  /** `start`: enrolls on first contact, creates the progress row at
      NOT_STARTED if absent, then applies the start step. */
  method StartVideo(db: Database, user: UserId, videoId: VideoId) returns (r: Result<VideoProgress, Error>)
    requires db.Valid()
    modifies db`enrollments, db`progress
    ensures db.Valid()
    ensures videoId !in db.videos ==> r == Err(NotFound(VideoMissing)) && unchanged(db)
    ensures videoId in db.videos ==>
      var ek := EnrollmentKey(user, db.videos[videoId].playlistId);
      var pk := ProgressKey(ek, videoId);
      && r == Ok(Started(RowOr(old(db.progress), pk, NotStarted)))
      && db.enrollments == (if ek in old(db.enrollments) then old(db.enrollments) else old(db.enrollments)[ek := NewEnrollment()])
      && db.progress == old(db.progress)[pk := r.value]
  {
    if videoId !in db.videos {
      return Err(NotFound(VideoMissing));
    }
    var ek := EnrollmentKey(user, db.videos[videoId].playlistId);
    var pk := ProgressKey(ek, videoId);
    var _ := GetOrCreateEnrollment(db, ek);
    var p := GetOrCreateProgress(db, pk);
    p := Started(p);
    db.progress := db.progress[pk := p];
    return Ok(p);
  }

  /** The heartbeat: needs the enrollment and the progress row, and creates
      nothing. */
  method UpdateWatchTime(db: Database, user: UserId, videoId: VideoId, seconds: nat) returns (r: Result<VideoProgress, Error>)
    requires db.Valid()
    modifies db`progress
    ensures db.Valid()
    ensures videoId !in db.videos ==> r == Err(NotFound(VideoMissing))
    ensures videoId in db.videos ==>
      var ek := EnrollmentKey(user, db.videos[videoId].playlistId);
      var pk := ProgressKey(ek, videoId);
      && (ek !in db.enrollments ==> r == Err(NotFound(NotEnrolled)))
      && (ek in db.enrollments && pk !in old(db.progress) ==> r == Err(NotFound(ProgressMissing)))
      && (pk in old(db.progress) ==>
            r == Ok(Heartbeat(old(db.progress)[pk], seconds)) && db.progress == old(db.progress)[pk := r.value])
    ensures r.Err? ==> db.progress == old(db.progress)
  {
    if videoId !in db.videos {
      return Err(NotFound(VideoMissing));
    }
    var ek := EnrollmentKey(user, db.videos[videoId].playlistId);
    if ek !in db.enrollments {
      return Err(NotFound(NotEnrolled));
    }
    var pk := ProgressKey(ek, videoId);
    if pk !in db.progress {
      return Err(NotFound(ProgressMissing));
    }
    var p := Heartbeat(db.progress[pk], seconds);
    db.progress := db.progress[pk := p];
    return Ok(p);
  }

  /** `complete`: needs the enrollment and the progress row; touches only
      that row. */
  method CompleteVideo(db: Database, user: UserId, videoId: VideoId) returns (r: Result<VideoProgress, Error>)
    requires db.Valid()
    modifies db`progress
    ensures db.Valid()
    ensures videoId !in db.videos ==> r == Err(NotFound(VideoMissing))
    ensures videoId in db.videos ==>
      var ek := EnrollmentKey(user, db.videos[videoId].playlistId);
      var pk := ProgressKey(ek, videoId);
      && (ek !in db.enrollments ==> r == Err(NotFound(NotEnrolled)))
      && (ek in db.enrollments && pk !in old(db.progress) ==> r == Err(NotFound(ProgressMissing)))
      && (pk in old(db.progress) ==>
            r == Ok(Completed(old(db.progress)[pk], db.videos[videoId].hasQuiz))
            && db.progress == old(db.progress)[pk := r.value])
    ensures r.Err? ==> db.progress == old(db.progress)
  {
    if videoId !in db.videos {
      return Err(NotFound(VideoMissing));
    }
    var video := db.videos[videoId];
    var ek := EnrollmentKey(user, video.playlistId);
    if ek !in db.enrollments {
      return Err(NotFound(NotEnrolled));
    }
    var pk := ProgressKey(ek, videoId);
    if pk !in db.progress {
      return Err(NotFound(ProgressMissing));
    }
    var p := Completed(db.progress[pk], video.hasQuiz);
    db.progress := db.progress[pk := p];
    return Ok(p);
  }

  /** Sets `is_completed` when the quiz-only signal holds; never clears it. */
  method CheckAndUpdateEnrollmentCompletion(db: Database, ek: EnrollmentKey, pid: PlaylistId) returns (allPassed: bool)
    requires db.Valid() && ek in db.enrollments
    modifies db`enrollments
    ensures db.Valid()
    ensures allPassed == QuizCompletion(db.videos, db.playlists, db.progress, ek, pid)
    ensures db.enrollments ==
      if allPassed then old(db.enrollments)[ek := old(db.enrollments)[ek].(isCompleted := true)]
      else old(db.enrollments)
  {
    allPassed := QuizCompletion(db.videos, db.playlists, db.progress, ek, pid);
    if allPassed {
      db.enrollments := db.enrollments[ek := db.enrollments[ek].(isCompleted := true)];
    }
  }

  /** Grades a submission.  The error checks come in the source's order: no
      video, no quiz, not enrolled, no questions.  A missing progress row is
      created at IN_PROGRESS; the result overwrites any earlier one; a
      passing result then runs the completion check. */
  method SubmitQuiz(db: Database, user: UserId, videoId: VideoId, answers: map<string, string>)
    returns (r: Result<(VideoProgress, QuizResult), Error>)
    requires db.Valid()
    modifies db`enrollments, db`progress
    ensures db.Valid()
    ensures r.Err? ==> unchanged(db)
    ensures videoId !in db.videos ==> r == Err(NotFound(VideoMissing))
    ensures videoId in db.videos ==>
      var video := db.videos[videoId];
      var ek := EnrollmentKey(user, video.playlistId);
      var pk := ProgressKey(ek, videoId);
      && (NoQuizToTake(video) ==> r == Err(BadRequest(NoQuiz)))
      && (!NoQuizToTake(video) && ek !in old(db.enrollments) ==> r == Err(NotFound(NotEnrolled)))
      && (!NoQuizToTake(video) && ek in old(db.enrollments) && QuestionsOf(video) == [] ==>
            r == Err(BadRequest(NoQuestions)))
      && (!NoQuizToTake(video) && ek in old(db.enrollments) && QuestionsOf(video) != [] ==>
            var g := Grade(QuestionsOf(video), answers);
            var row := Graded(RowOr(old(db.progress), pk, InProgress), g.score, g.passed);
            && r == Ok((row, g))
            && db.progress == old(db.progress)[pk := row]
            && var complete := g.passed && QuizCompletion(db.videos, db.playlists, db.progress, ek, video.playlistId);
               db.enrollments == if complete then old(db.enrollments)[ek := old(db.enrollments)[ek].(isCompleted := true)]
                                 else old(db.enrollments))
  {
    if videoId !in db.videos {
      return Err(NotFound(VideoMissing));
    }
    var video := db.videos[videoId];
    if NoQuizToTake(video) {
      return Err(BadRequest(NoQuiz));
    }
    var ek := EnrollmentKey(user, video.playlistId);
    if ek !in db.enrollments {
      return Err(NotFound(NotEnrolled));
    }
    var questions := QuestionsOf(video);
    if |questions| == 0 {
      return Err(BadRequest(NoQuestions));
    }
    var pk := ProgressKey(ek, videoId);
    var g := Grade(questions, answers);
    var row := Graded(RowOr(db.progress, pk, InProgress), g.score, g.passed);
    db.progress := db.progress[pk := row];
    if g.passed {
      var _ := CheckAndUpdateEnrollmentCompletion(db, ek, video.playlistId);
    }
    return Ok((row, g));
  }
}
