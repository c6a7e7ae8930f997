/** The rows the progress and certificate services read and write, and the
    relational store that holds them.  Each table is a map from the row's
    unique key to the row, so the unique constraints on (user, playlist) for
    enrollments and (enrollment, video) for progress rows hold by
    construction. */
module Models {
  import opened Wrappers

  type UserId = string
  type VideoId = int
  type PlaylistId = int
  type CertificateId = string

  /** Watch status of one video within one enrollment. */
  datatype WatchStatus = NotStarted | InProgress | Watched

  /** Position in the forward order NOT_STARTED < IN_PROGRESS < WATCHED. */
  function StatusRank(s: WatchStatus): (n: nat)
    ensures n <= 2
    ensures n == 0 <==> s == NotStarted
    ensures n == 2 <==> s == Watched
  {
    match s
    case NotStarted => 0
    case InProgress => 1
    case Watched => 2
  }

  /** One quiz question as stored in the video's JSON; only its "answer"
      key is read, and a missing key reads as "". */
  datatype Question = Question(answer: Option<string>)

  /** The video's `quiz_data` JSON object: its "questions" key, if present,
      and whether it holds any other key (an object with no keys at all is
      falsy in Python). */
  datatype QuizJson = QuizJson(questions: Option<seq<Question>>, hasOtherKeys: bool)

  datatype Role = Student | Creator | Admin

  datatype User = User(id: UserId, fullName: string, role: Role)

  /** Whether a course was created from a playlist or from one video. */
  datatype PlaylistType = WholePlaylist | SingleVideo

  datatype AnalysisStatus = Pending | AnalysisCompleted | AnalysisFailed

  /** A video of a course, written by course ingestion and read by the
      progress and certificate services. */
  datatype Video = Video(
    playlistId: PlaylistId,
    youtubeVideoId: string,
    title: string,
    durationSeconds: int,
    hasQuiz: bool,
    quizData: Option<QuizJson>,
    analysisStatus: AnalysisStatus)

  /** A course; `videoIds` is the order in which the store lists its videos. */
  datatype Playlist = Playlist(
    creatorId: UserId,
    youtubeId: string,
    title: string,
    description: Option<string>,
    kind: PlaylistType,
    totalVideos: int,
    isPublished: bool,
    videoIds: seq<VideoId>)

  datatype EnrollmentKey = EnrollmentKey(user: UserId, playlist: PlaylistId)

  datatype Enrollment = Enrollment(isCompleted: bool, certificateUrl: Option<string>)

  datatype ProgressKey = ProgressKey(enrollment: EnrollmentKey, video: VideoId)

  datatype VideoProgress = VideoProgress(
    status: WatchStatus,
    secondsWatched: nat,
    quizScore: Option<int>,
    isQuizPassed: bool)

  datatype Certificate = Certificate(
    id: CertificateId,
    user: UserId,
    playlist: PlaylistId,
    issuedAt: int,
    pdfUrl: string)

  /** A fresh enrollment row: column defaults of the model. */
  function NewEnrollment(): (e: Enrollment)
    ensures !e.isCompleted && e.certificateUrl == None
  {
    Enrollment(false, None)
  }

  /** A fresh progress row at the given status: column defaults of the model. */
  function NewProgress(status: WatchStatus): (p: VideoProgress)
    ensures p.status == status && p.secondsWatched == 0
    ensures p.quizScore == None && !p.isQuizPassed
  {
    VideoProgress(status, 0, None, false)
  }

  /** The relational store shared by the progress and certificate services. */
  class Database {
    var users: map<UserId, User>
    var videos: map<VideoId, Video>
    var playlists: map<PlaylistId, Playlist>
    var enrollments: map<EnrollmentKey, Enrollment>
    var progress: map<ProgressKey, VideoProgress>
    var certificates: map<CertificateId, Certificate>

    /** Foreign keys and unique constraints of the schema. */
    ghost predicate Valid()
      reads this
    {
      && UsersConsistent(users, playlists)
      && CatalogConsistent(videos, playlists)
      && (forall k :: k in progress ==> k.enrollment in enrollments)
      && CertificatesConsistent(certificates, enrollments)
    }

    constructor (users: map<UserId, User>, videos: map<VideoId, Video>, playlists: map<PlaylistId, Playlist>)
      requires UsersConsistent(users, playlists) && CatalogConsistent(videos, playlists)
      ensures Valid()
      ensures this.users == users && this.videos == videos && this.playlists == playlists
      ensures enrollments == map[] && progress == map[] && certificates == map[]
    {
      this.users := users;
      this.videos := videos;
      this.playlists := playlists;
      enrollments := map[];
      progress := map[];
      certificates := map[];
    }
  }

  /** Users are stored under their own id and every course's creator is
      a stored user. */
  ghost predicate UsersConsistent(users: map<UserId, User>, playlists: map<PlaylistId, Playlist>) {
    && (forall u :: u in users ==> users[u].id == u)
    && (forall p :: p in playlists ==> playlists[p].creatorId in users)
  }

  /** A course lists exactly its videos, each once: every listed video
      exists and points back at the course, and every video is listed by the
      course it points at. YouTube ids of courses and of videos are unique. */
  ghost predicate CatalogConsistent(videos: map<VideoId, Video>, playlists: map<PlaylistId, Playlist>) {
    && CourseVideosExist(videos, playlists)
    && (forall p :: p in playlists ==> DistinctIds(playlists[p].videoIds))
    && VideosListed(videos, playlists)
    && CourseYoutubeIdsUnique(playlists)
    && VideoYoutubeIdsUnique(videos)
  }

  /** Every video a course lists exists and points back at that course. */
  ghost predicate CourseVideosExist(videos: map<VideoId, Video>, playlists: map<PlaylistId, Playlist>) {
    forall p, i :: p in playlists && 0 <= i < |playlists[p].videoIds| ==>
      playlists[p].videoIds[i] in videos && videos[playlists[p].videoIds[i]].playlistId == p
  }

  /** Every video is listed by the course it points at. */
  ghost predicate VideosListed(videos: map<VideoId, Video>, playlists: map<PlaylistId, Playlist>) {
    forall v :: v in videos ==> videos[v].playlistId in playlists && v in playlists[videos[v].playlistId].videoIds
  }

  /** No two courses share a YouTube id. */
  ghost predicate CourseYoutubeIdsUnique(playlists: map<PlaylistId, Playlist>) {
    forall p, q :: p in playlists && q in playlists && playlists[p].youtubeId == playlists[q].youtubeId ==> p == q
  }

  /** No two videos share a YouTube video id. */
  ghost predicate VideoYoutubeIdsUnique(videos: map<VideoId, Video>) {
    forall v, w :: v in videos && w in videos && videos[v].youtubeVideoId == videos[w].youtubeVideoId ==> v == w
  }

  /** No video id is listed twice. */
  predicate DistinctIds(ids: seq<VideoId>) {
    forall i, j :: 0 <= i < j < |ids| ==> ids[i] != ids[j]
  }

  /** Certificates are stored under their own id, there is at most one per
      (user, playlist), and a certified enrollment exists and is completed. */
  ghost predicate CertificatesConsistent(certs: map<CertificateId, Certificate>, enrollments: map<EnrollmentKey, Enrollment>) {
    && (forall id :: id in certs ==> certs[id].id == id)
    && (forall id :: id in certs ==>
          var k := EnrollmentKey(certs[id].user, certs[id].playlist);
          k in enrollments && enrollments[k].isCompleted)
    && (forall id1, id2 ::
          (id1 in certs && id2 in certs && certs[id1].user == certs[id2].user && certs[id1].playlist == certs[id2].playlist)
          ==> id1 == id2)
  }
}
