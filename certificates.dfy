/** Certificate eligibility and issuance.  Eligibility is stricter than the
    quiz-only completion signal: every video of the course needs a progress
    row that is WATCHED and passed.  Issuance is get-or-create on
    (user, course); the random certificate id, the clock and the PDF
    rendering are inputs of the model. */
module Certificates {
  import opened Wrappers
  import opened Models
  import opened Progress

  /** One unmet requirement, in the order the check reports it. */
  datatype Requirement =
    | NoEnrollment
    | EmptyCourse
    | VideoNotStarted(title: string)
    | VideoNotWatched(title: string)
    | VideoQuizNotPassed(title: string)

  /** The message the service returns for a requirement. */
  function Message(r: Requirement): string {
    match r
    case NoEnrollment => "User is not enrolled in this course"
    case EmptyCourse => "Course has no videos"
    case VideoNotStarted(t) => "Video '" + t + "' not started"
    case VideoNotWatched(t) => "Video '" + t + "' not fully watched"
    case VideoQuizNotPassed(t) => "Video '" + t + "' quiz not passed"
  }

  /** A video is done when its progress row exists, is WATCHED and passed. */
  predicate VideoDone(progress: map<ProgressKey, VideoProgress>, ek: EnrollmentKey, v: VideoId) {
    var pk := ProgressKey(ek, v);
    pk in progress && progress[pk].status == Watched && progress[pk].isQuizPassed
  }

  /** What one video still lacks. */
  function VideoRequirements(title: string, row: Option<VideoProgress>): seq<Requirement>
  {
    match row
    case None => [VideoNotStarted(title)]
    case Some(p) =>
      (if p.status != Watched then [VideoNotWatched(title)] else [])
      + (if !p.isQuizPassed then [VideoQuizNotPassed(title)] else [])
  }

  /** A missing row is reported as "not started" alone; an existing row can
      lack watching, passing, or both, and lacks nothing exactly when it is
      WATCHED and passed. */
  lemma VideoRequirementsMeaning(title: string, row: Option<VideoProgress>)
    ensures var m := VideoRequirements(title, row);
      && (row.None? ==> m == [VideoNotStarted(title)])
      && (row.Some? ==>
            && (VideoNotWatched(title) in m <==> row.value.status != Watched)
            && (VideoQuizNotPassed(title) in m <==> !row.value.isQuizPassed)
            && (forall r :: r in m ==> r == VideoNotWatched(title) || r == VideoQuizNotPassed(title)))
      && (m == [] <==> row.Some? && row.value.status == Watched && row.value.isQuizPassed)
  {
  }

  function RowOf(progress: map<ProgressKey, VideoProgress>, ek: EnrollmentKey, v: VideoId): Option<VideoProgress> {
    var pk := ProgressKey(ek, v);
    if pk in progress then Some(progress[pk]) else None
  }

  /** The requirements of the listed videos, video after video. */
  function MissingFor(
    videos: map<VideoId, Video>, progress: map<ProgressKey, VideoProgress>,
    ek: EnrollmentKey, ids: seq<VideoId>): seq<Requirement>
    requires ListedVideosExist(videos, ids)
  {
    if ids == [] then []
    else VideoRequirements(videos[ids[0]].title, RowOf(progress, ek, ids[0])) + MissingFor(videos, progress, ek, ids[1..])
  }

  /** The list is built video by video: the requirements of a longer list
      are those of its first part followed by those of the rest. */
  lemma {:induction false} MissingForAppend(
    videos: map<VideoId, Video>, progress: map<ProgressKey, VideoProgress>,
    ek: EnrollmentKey, a: seq<VideoId>, b: seq<VideoId>)
    requires ListedVideosExist(videos, a) && ListedVideosExist(videos, b)
    ensures ListedVideosExist(videos, a + b)
    ensures MissingFor(videos, progress, ek, a + b) == MissingFor(videos, progress, ek, a) + MissingFor(videos, progress, ek, b)
  {
    if a == [] {
      assert a + b == b;
    } else {
      var ab := a + b;
      assert ab[0] == a[0] && ab[1..] == a[1..] + b;
      MissingForAppend(videos, progress, ek, a[1..], b);
    }
  }

  /** Nothing is missing exactly when every listed video is done. */
  lemma {:induction false} MissingForEmpty(
    videos: map<VideoId, Video>, progress: map<ProgressKey, VideoProgress>,
    ek: EnrollmentKey, ids: seq<VideoId>)
    requires ListedVideosExist(videos, ids)
    ensures MissingFor(videos, progress, ek, ids) == [] <==> forall v :: v in ids ==> VideoDone(progress, ek, v)
  {
    if ids != [] {
      MissingForEmpty(videos, progress, ek, ids[1..]);
      var head := VideoRequirements(videos[ids[0]].title, RowOf(progress, ek, ids[0]));
      VideoRequirementsMeaning(videos[ids[0]].title, RowOf(progress, ek, ids[0]));
      assert head == [] <==> VideoDone(progress, ek, ids[0]);
      assert forall v :: v in ids <==> v == ids[0] || v in ids[1..];
    }
  }

  /** The videos of a course, in the store's listing order; an unknown
      course has none. */
  function CourseVideos(playlists: map<PlaylistId, Playlist>, pid: PlaylistId): seq<VideoId> {
    if pid in playlists then playlists[pid].videoIds else []
  }

  /** `check_eligibility`: eligible with nothing missing, or not eligible
      with the ordered list of what is missing. */
  function CheckEligibility(
    videos: map<VideoId, Video>, playlists: map<PlaylistId, Playlist>,
    enrollments: map<EnrollmentKey, Enrollment>, progress: map<ProgressKey, VideoProgress>,
    user: UserId, pid: PlaylistId): (r: (bool, seq<Requirement>))
    requires CatalogConsistent(videos, playlists)
    ensures r.0 <==> r.1 == []
    ensures EnrollmentKey(user, pid) !in enrollments ==> r == (false, [NoEnrollment])
    ensures EnrollmentKey(user, pid) in enrollments && CourseVideos(playlists, pid) == [] ==> r == (false, [EmptyCourse])
  {
    var ek := EnrollmentKey(user, pid);
    if ek !in enrollments then (false, [NoEnrollment])
    else
      var ids := CourseVideos(playlists, pid);
      if ids == [] then (false, [EmptyCourse])
      else
        var missing := MissingFor(videos, progress, ek, ids);
        if missing != [] then (false, missing) else (true, [])
  }

  /** Eligibility as a statement about the course: enrolled, the course
      has videos, and every one of them is WATCHED and passed. */
  lemma EligibilityMeaning(
    videos: map<VideoId, Video>, playlists: map<PlaylistId, Playlist>,
    enrollments: map<EnrollmentKey, Enrollment>, progress: map<ProgressKey, VideoProgress>,
    user: UserId, pid: PlaylistId)
    requires CatalogConsistent(videos, playlists)
    ensures CheckEligibility(videos, playlists, enrollments, progress, user, pid).0 <==>
      && EnrollmentKey(user, pid) in enrollments
      && CourseVideos(playlists, pid) != []
      && forall v :: v in CourseVideos(playlists, pid) ==> VideoDone(progress, EnrollmentKey(user, pid), v)
  {
    var ek := EnrollmentKey(user, pid);
    if ek in enrollments && CourseVideos(playlists, pid) != [] {
      MissingForEmpty(videos, progress, ek, CourseVideos(playlists, pid));
    }
  }

  /** The strict criterion implies the quiz-only one whenever the course has
      a quiz-bearing video. */
  lemma EligibleImpliesQuizCompletion(
    videos: map<VideoId, Video>, playlists: map<PlaylistId, Playlist>,
    enrollments: map<EnrollmentKey, Enrollment>, progress: map<ProgressKey, VideoProgress>,
    user: UserId, pid: PlaylistId)
    requires CatalogConsistent(videos, playlists)
    requires CheckEligibility(videos, playlists, enrollments, progress, user, pid).0
    requires exists v :: v in CourseVideos(playlists, pid) && videos[v].hasQuiz
    ensures QuizCompletion(videos, playlists, progress, EnrollmentKey(user, pid), pid)
  {
    EligibilityMeaning(videos, playlists, enrollments, progress, user, pid);
    QuizCompletionMeaning(videos, playlists, progress, EnrollmentKey(user, pid), pid);
  }

  /** The relative URL under which the PDF of a certificate is stored. */
  function CertificateUrl(id: CertificateId): (url: string)
    ensures |url| == |"/static/certificates/"| + |id| + 4
    ensures url[..|"/static/certificates/"|] == "/static/certificates/"
    ensures url[|url| - 4..] == ".pdf"
    ensures url[|"/static/certificates/"|..|url| - 4] == id
  {
    "/static/certificates/" + id + ".pdf"
  }

  /** Different certificates are stored under different files. */
  lemma CertificateUrlInjective(a: CertificateId, b: CertificateId)
    requires CertificateUrl(a) == CertificateUrl(b)
    ensures a == b
  {
    assert a == CertificateUrl(a)[|"/static/certificates/"|..|CertificateUrl(a)| - 4];
  }

  /** The certificate already issued for (user, course), if any. */
  predicate IssuedFor(c: Certificate, user: UserId, pid: PlaylistId) {
    c.user == user && c.playlist == pid
  }

  datatype IssueError = NotEligible(missing: seq<Requirement>)

  /** `issue_certificate`.  An existing certificate is returned as it is,
      with no eligibility check.  An ineligible student gets the missing
      list and nothing changes.  Otherwise a certificate with the fresh id is
      stored and the enrollment is marked completed with the PDF's URL. */
  method IssueCertificate(db: Database, user: UserId, pid: PlaylistId, freshId: CertificateId, issuedAt: int)
    returns (r: Result<Certificate, IssueError>)
    requires db.Valid()
    requires freshId !in db.certificates
    modifies db`certificates, db`enrollments
    ensures db.Valid()
    ensures forall id :: id in old(db.certificates) && IssuedFor(old(db.certificates)[id], user, pid) ==>
      r == Ok(old(db.certificates)[id]) && unchanged(db)
    ensures (forall id :: id in old(db.certificates) ==> !IssuedFor(old(db.certificates)[id], user, pid)) ==>
      var e := CheckEligibility(db.videos, db.playlists, old(db.enrollments), db.progress, user, pid);
      && (!e.0 ==> r == Err(NotEligible(e.1)) && unchanged(db))
      && (e.0 ==>
            var url := CertificateUrl(freshId);
            && r == Ok(Certificate(freshId, user, pid, issuedAt, url))
            && db.certificates == old(db.certificates)[freshId := r.value]
            && db.enrollments == old(db.enrollments)[EnrollmentKey(user, pid) := Enrollment(true, Some(url))])
    ensures r.Ok? ==> IssuedFor(r.value, user, pid) && r.value.id in db.certificates && db.certificates[r.value.id] == r.value
  {
    if exists id :: id in db.certificates && IssuedFor(db.certificates[id], user, pid) {
      var id :| id in db.certificates && IssuedFor(db.certificates[id], user, pid);
      return Ok(db.certificates[id]);
    }
    var e := CheckEligibility(db.videos, db.playlists, db.enrollments, db.progress, user, pid);
    if !e.0 {
      return Err(NotEligible(e.1));
    }
    var ek := EnrollmentKey(user, pid);
    var url := CertificateUrl(freshId);
    var cert := Certificate(freshId, user, pid, issuedAt, url);
    IssueKeepsCertificates(db.certificates, db.enrollments, cert, Enrollment(true, Some(url)));
    db.certificates := db.certificates[freshId := cert];
    db.enrollments := db.enrollments[ek := Enrollment(true, Some(url))];
    return Ok(cert);
  }

  /** Storing a certificate for a course that has none yet, with its
      enrollment completed, keeps the certificate constraints. */
  lemma IssueKeepsCertificates(certs: map<CertificateId, Certificate>, enrollments: map<EnrollmentKey, Enrollment>,
                               cert: Certificate, enrollment: Enrollment)
    requires CertificatesConsistent(certs, enrollments)
    requires cert.id !in certs && enrollment.isCompleted
    requires forall id :: id in certs ==> !IssuedFor(certs[id], cert.user, cert.playlist)
    ensures CertificatesConsistent(certs[cert.id := cert],
                                   enrollments[EnrollmentKey(cert.user, cert.playlist) := enrollment])
  {
  }

  /** A second issue for the same student and course returns the first
      certificate and stores no second one. */
  method IssueTwice(db: Database, user: UserId, pid: PlaylistId, id1: CertificateId, id2: CertificateId, t1: int, t2: int)
    returns (r1: Result<Certificate, IssueError>, r2: Result<Certificate, IssueError>)
    requires db.Valid()
    requires id1 !in db.certificates && id2 !in db.certificates && id1 != id2
    modifies db`certificates, db`enrollments
    ensures r1.Ok? ==> r2 == r1
    ensures r1.Ok? ==> db.certificates == old(db.certificates)[r1.value.id := r1.value]
  {
    r1 := IssueCertificate(db, user, pid, id1, t1);
    if r1.Ok? {
      r2 := IssueCertificate(db, user, pid, id2, t2);
    } else {
      r2 := r1;
    }
  }

  /** `get_certificate`: the stored record, or not found. */
  function GetCertificate(db: Database, id: CertificateId): (r: Option<Certificate>)
    reads db
    requires db.Valid()
    ensures id in db.certificates <==> r.Some?
    ensures r.Some? ==> r.value == db.certificates[id] && r.value.id == id
  {
    if id in db.certificates then Some(db.certificates[id]) else None
  }
}
