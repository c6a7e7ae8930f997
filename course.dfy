/** Course management: a creator turns a YouTube URL into a draft course
    with one PENDING video row per fetched video, publishes it, and
    students browse the published catalogue page by page.  The YouTube
    Data API lookup is a parameter: a function from the parsed id and kind
    to the fetched metadata or the HTTP error the lookup raises. */
module Course {
  import opened Wrappers
  import opened Text
  import opened Models
  import opened YouTube
  import Sets

  /** One entry of the fetched metadata's "videos" list. */
  datatype VideoMetadata = VideoMetadata(videoId: string, title: string, durationSeconds: int)

  /** What the YouTube lookup returns for a playlist or a single video. */
  datatype CourseMetadata = CourseMetadata(title: string, description: Option<string>, videos: seq<VideoMetadata>)

  /** An `HTTPException(status_code, detail)`, or the integrity error the
      commit raises when a unique column would be duplicated (the session
      is then rolled back). */
  datatype CourseError = HttpError(status: int, detail: string) | IntegrityError

  type Fetch = (string, PlaylistType) -> Result<CourseMetadata, CourseError>

  /** The video row created for one fetched video: column defaults give no
      quiz and a PENDING analysis. */
  function NewVideoRow(pid: PlaylistId, m: VideoMetadata): (v: Video)
    ensures v.playlistId == pid && v.youtubeVideoId == m.videoId && v.title == m.title
    ensures v.durationSeconds == m.durationSeconds
    ensures !v.hasQuiz && v.quizData == None && v.analysisStatus == Pending
  {
    Video(pid, m.videoId, m.title, m.durationSeconds, false, None, Pending)
  }

  /** Video rows for `metas`, numbered from `first` by the autoincrement key. */
  function NewVideos(pid: PlaylistId, first: VideoId, metas: seq<VideoMetadata>): map<VideoId, Video> {
    if metas == [] then map[]
    else NewVideos(pid, first, metas[..|metas| - 1])[first + |metas| - 1 := NewVideoRow(pid, metas[|metas| - 1])]
  }

  /** The new rows are keyed `first` to `first + |metas| - 1`. */
  lemma {:induction false} NewVideosKeys(pid: PlaylistId, first: VideoId, metas: seq<VideoMetadata>)
    ensures forall v :: v in NewVideos(pid, first, metas) ==> first <= v < first + |metas|
  {
    if metas != [] {
      var init := metas[..|metas| - 1];
      NewVideosKeys(pid, first, init);
    }
  }

  /** The row under `first + i` is made from the `i`-th fetched video. */
  lemma {:induction false} NewVideosAt(pid: PlaylistId, first: VideoId, metas: seq<VideoMetadata>, i: int)
    requires 0 <= i < |metas|
    ensures first + i in NewVideos(pid, first, metas)
    ensures NewVideos(pid, first, metas)[first + i] == NewVideoRow(pid, metas[i])
  {
    var init := metas[..|metas| - 1];
    if i < |init| {
      NewVideosAt(pid, first, init, i);
      assert init[i] == metas[i];
    }
  }

  /** The ids `first`, `first + 1`, ... of `n` new rows, in insertion order. */
  function IdRange(first: int, n: nat): (r: seq<int>)
    ensures |r| == n && forall i :: 0 <= i < n ==> r[i] == first + i
  {
    seq(n, i => first + i)
  }

  /** The commit succeeds only if no fetched video id is already stored
      and the fetched ids are pairwise distinct (`youtube_video_id` is
      unique). */
  predicate FreshVideoIds(videos: map<VideoId, Video>, metas: seq<VideoMetadata>) {
    && (forall v, i :: v in videos && 0 <= i < |metas| ==> videos[v].youtubeVideoId != metas[i].videoId)
    && (forall i, j :: 0 <= i < j < |metas| ==> metas[i].videoId != metas[j].videoId)
  }

  /** Some stored course already has this YouTube id. */
  predicate YoutubeIdTaken(playlists: map<PlaylistId, Playlist>, id: string) {
    exists p :: p in playlists && playlists[p].youtubeId == id
  }

  /** The checks `create_course_from_url` makes before writing, in order:
      the role (403), the URL (400), a duplicate YouTube id (400), the
      lookup (its own error), and the uniqueness of the fetched video ids
      at commit.  On success: the parsed id, its kind and the metadata. */
  function Admission(playlists: map<PlaylistId, Playlist>, videos: map<VideoId, Video>,
                     user: User, url: string, fetch: Fetch): (r: Result<(string, PlaylistType, CourseMetadata), CourseError>)
    ensures user.role != Creator ==> r == Err(HttpError(403, "Only creators can create courses"))
    ensures user.role == Creator && ParseYoutubeUrl(url).Err? ==> r == Err(HttpError(400, ParseYoutubeUrl(url).error))
    ensures user.role == Creator && ParseYoutubeUrl(url).Ok? ==>
      var id := ParseYoutubeUrl(url).value.0;
      YoutubeIdTaken(playlists, id) ==> r == Err(HttpError(400, "Course with YouTube ID '" + id + "' already exists"))
    ensures user.role == Creator && ParseYoutubeUrl(url).Ok? ==>
      var (id, kind) := ParseYoutubeUrl(url).value;
      !YoutubeIdTaken(playlists, id) && fetch(id, kind).Err? ==> r == Err(fetch(id, kind).error)
    ensures user.role == Creator && ParseYoutubeUrl(url).Ok? ==>
      var (id, kind) := ParseYoutubeUrl(url).value;
      !YoutubeIdTaken(playlists, id) && fetch(id, kind).Ok? && FreshVideoIds(videos, fetch(id, kind).value.videos) ==> r.Ok?
    ensures r.Ok? ==>
      && user.role == Creator
      && ParseYoutubeUrl(url) == Ok((r.value.0, r.value.1))
      && !YoutubeIdTaken(playlists, r.value.0)
      && fetch(r.value.0, r.value.1) == Ok(r.value.2)
      && FreshVideoIds(videos, r.value.2.videos)
  {
    if user.role != Creator then Err(HttpError(403, "Only creators can create courses"))
    else match ParseYoutubeUrl(url)
      case Err(msg) => Err(HttpError(400, msg))
      case Ok((id, kind)) =>
        if YoutubeIdTaken(playlists, id) then Err(HttpError(400, "Course with YouTube ID '" + id + "' already exists"))
        else match fetch(id, kind)
          case Err(e) => Err(e)
          case Ok(meta) => if FreshVideoIds(videos, meta.videos) then Ok((id, kind, meta)) else Err(IntegrityError)
  }

  /** The draft course row a successful creation writes. */
  function DraftCourse(user: User, id: string, kind: PlaylistType, meta: CourseMetadata, first: VideoId): (p: Playlist)
    ensures p.creatorId == user.id && p.youtubeId == id && p.kind == kind
    ensures p.totalVideos == |meta.videos| && !p.isPublished
    ensures p.videoIds == IdRange(first, |meta.videos|)
  {
    Playlist(user.id, id, meta.title, meta.description, kind, |meta.videos|, false, IdRange(first, |meta.videos|))
  }

  /** Adding a draft course and its fresh video rows keeps the catalogue
      consistent: the new videos point at the new course, which lists
      exactly them, and the YouTube ids stay unique. */
  lemma AddCourseKeepsCatalog(videos: map<VideoId, Video>, playlists: map<PlaylistId, Playlist>,
                              pid: PlaylistId, first: VideoId, course: Playlist, metas: seq<VideoMetadata>)
    requires CatalogConsistent(videos, playlists)
    requires pid !in playlists && forall v :: v in videos ==> v < first
    requires course.videoIds == IdRange(first, |metas|)
    requires !YoutubeIdTaken(playlists, course.youtubeId)
    requires FreshVideoIds(videos, metas)
    ensures CatalogConsistent(videos + NewVideos(pid, first, metas), playlists[pid := course])
  {
    AddCourseListsVideos(videos, playlists, pid, first, course, metas);
    AddCourseVideosPointBack(videos, playlists, pid, first, course, metas);
    AddCourseVideoIdsUnique(videos, pid, first, metas);
    AddCourseIdsDistinct(playlists, pid, first, course, |metas|);
    AddCourseYoutubeIdsUnique(playlists, pid, course);
  }

  /** The new course's YouTube id is not taken, so course YouTube ids stay
      unique. */
  lemma AddCourseYoutubeIdsUnique(playlists: map<PlaylistId, Playlist>, pid: PlaylistId, course: Playlist)
    requires CourseYoutubeIdsUnique(playlists)
    requires pid !in playlists && !YoutubeIdTaken(playlists, course.youtubeId)
    ensures CourseYoutubeIdsUnique(playlists[pid := course])
  {
  }

  /** The new course lists each of its fresh ids once, and the other
      courses keep their lists. */
  lemma AddCourseIdsDistinct(playlists: map<PlaylistId, Playlist>, pid: PlaylistId, first: VideoId, course: Playlist, n: nat)
    requires forall p :: p in playlists ==> DistinctIds(playlists[p].videoIds)
    requires course.videoIds == IdRange(first, n)
    ensures var ps := playlists[pid := course]; forall p :: p in ps ==> DistinctIds(ps[p].videoIds)
  {
    assert DistinctIds(course.videoIds);
  }

  lemma AddCourseListsVideos(videos: map<VideoId, Video>, playlists: map<PlaylistId, Playlist>,
                             pid: PlaylistId, first: VideoId, course: Playlist, metas: seq<VideoMetadata>)
    requires CourseVideosExist(videos, playlists)
    requires pid !in playlists && forall v :: v in videos ==> v < first
    requires course.videoIds == IdRange(first, |metas|)
    ensures CourseVideosExist(videos + NewVideos(pid, first, metas), playlists[pid := course])
  {
    NewVideosKeys(pid, first, metas);
    var vs := videos + NewVideos(pid, first, metas);
    var ps := playlists[pid := course];
    forall p, i | p in ps && 0 <= i < |ps[p].videoIds|
      ensures ps[p].videoIds[i] in vs && vs[ps[p].videoIds[i]].playlistId == p
    {
      if p != pid {
        var v := playlists[p].videoIds[i];
        assert v in videos && v < first;
        assert vs[v] == videos[v];
      } else {
        assert ps[p].videoIds[i] == first + i && i < |metas|;
        NewVideosAt(pid, first, metas, i);
      }
    }
  }

  lemma AddCourseVideosPointBack(videos: map<VideoId, Video>, playlists: map<PlaylistId, Playlist>,
                                 pid: PlaylistId, first: VideoId, course: Playlist, metas: seq<VideoMetadata>)
    requires VideosListed(videos, playlists)
    requires pid !in playlists && forall v :: v in videos ==> v < first
    requires course.videoIds == IdRange(first, |metas|)
    ensures VideosListed(videos + NewVideos(pid, first, metas), playlists[pid := course])
  {
    NewVideosKeys(pid, first, metas);
    var vs := videos + NewVideos(pid, first, metas);
    var ps := playlists[pid := course];
    forall v | v in vs ensures vs[v].playlistId in ps && v in ps[vs[v].playlistId].videoIds {
      if v in videos {
        assert vs[v] == videos[v];
        assert ps[videos[v].playlistId] == playlists[videos[v].playlistId];
      } else {
        NewVideosAt(pid, first, metas, v - first);
        assert course.videoIds[v - first] == v;
      }
    }
  }

  lemma AddCourseVideoIdsUnique(videos: map<VideoId, Video>, pid: PlaylistId, first: VideoId, metas: seq<VideoMetadata>)
    requires VideoYoutubeIdsUnique(videos)
    requires forall v :: v in videos ==> v < first
    requires FreshVideoIds(videos, metas)
    ensures VideoYoutubeIdsUnique(videos + NewVideos(pid, first, metas))
  {
    NewVideosKeys(pid, first, metas);
    var vs := videos + NewVideos(pid, first, metas);
    forall v, w | v in vs && w in vs && v != w ensures vs[v].youtubeVideoId != vs[w].youtubeVideoId {
      if v in videos && w in videos {
        assert vs[v] == videos[v] && vs[w] == videos[w];
      } else if v in videos {
        NewVideosAt(pid, first, metas, w - first);
        assert vs[v] == videos[v] && vs[w] == NewVideoRow(pid, metas[w - first]);
      } else if w in videos {
        NewVideosAt(pid, first, metas, v - first);
        assert vs[w] == videos[w] && vs[v] == NewVideoRow(pid, metas[v - first]);
      } else {
        NewVideosAt(pid, first, metas, v - first);
        NewVideosAt(pid, first, metas, w - first);
        assert vs[v] == NewVideoRow(pid, metas[v - first]) && vs[w] == NewVideoRow(pid, metas[w - first]);
        if v < w {
          assert metas[v - first].videoId != metas[w - first].videoId;
        } else {
          assert metas[w - first].videoId != metas[v - first].videoId;
        }
      }
    }
  }

  /** Inserting the row of the `i`-th fetched video extends the rows of
      the first `i`. */
  lemma NewVideosStep(before: map<VideoId, Video>, pid: PlaylistId, first: VideoId, metas: seq<VideoMetadata>, i: nat)
    requires i < |metas|
    ensures (before + NewVideos(pid, first, metas[..i]))[first + i := NewVideoRow(pid, metas[i])]
         == before + NewVideos(pid, first, metas[..i + 1])
  {
    assert metas[..i + 1][..i] == metas[..i];
    var small := NewVideos(pid, first, metas[..i]);
    var big := NewVideos(pid, first, metas[..i + 1]);
    assert big == small[first + i := NewVideoRow(pid, metas[i])];
  }

  /** `create_course_from_url`: the checks of `Admission`; on success a
      draft course under the fresh id `pid` whose `total_videos` is the
      number of fetched videos, and one PENDING row per fetched video, in
      order, under the fresh ids from `first`.  Every error leaves the
      store as it was. */
  method CreateCourseFromUrl(db: Database, user: User, url: string, fetch: Fetch, pid: PlaylistId, first: VideoId)
    returns (r: Result<PlaylistId, CourseError>)
    requires db.Valid() && user.id in db.users
    requires pid !in db.playlists && forall v :: v in db.videos ==> v < first
    modifies db`playlists, db`videos
    ensures db.Valid()
    ensures var a := Admission(old(db.playlists), old(db.videos), user, url, fetch);
      && (a.Err? ==> r == Err(a.error) && db.playlists == old(db.playlists) && db.videos == old(db.videos))
      && (a.Ok? ==>
            && r == Ok(pid)
            && db.playlists == old(db.playlists)[pid := DraftCourse(user, a.value.0, a.value.1, a.value.2, first)]
            && db.videos == old(db.videos) + NewVideos(pid, first, a.value.2.videos))
  {
    var a := Admission(db.playlists, db.videos, user, url, fetch);
    if a.Err? {
      return Err(a.error);
    }
    var (id, kind, meta) := a.value;
    var course := DraftCourse(user, id, kind, meta, first);
    AddCourseKeepsCatalog(db.videos, db.playlists, pid, first, course, meta.videos);
    db.playlists := db.playlists[pid := course];
    InsertVideos(db, pid, first, meta.videos);
    r := Ok(pid);
  }

  /** The loop of `create_course_from_url` that adds one PENDING row per
      fetched video, in order, under the ids from `first`. */
  method InsertVideos(db: Database, pid: PlaylistId, first: VideoId, metas: seq<VideoMetadata>)
    modifies db`videos
    ensures db.videos == old(db.videos) + NewVideos(pid, first, metas)
  {
    var i := 0;
    while i < |metas|
      invariant 0 <= i <= |metas|
      invariant db.videos == old(db.videos) + NewVideos(pid, first, metas[..i])
    {
      NewVideosStep(old(db.videos), pid, first, metas, i);
      db.videos := db.videos[first + i := NewVideoRow(pid, metas[i])];
      i := i + 1;
    }
    assert metas[..i] == metas;
  }

  /** Once a course exists, creating it again from the same URL is refused
      as a duplicate, whatever the lookup would return. */
  lemma CreateTwiceRefused(playlists: map<PlaylistId, Playlist>, videos: map<VideoId, Video>,
                           user: User, url: string, fetch: Fetch, pid: PlaylistId, first: VideoId)
    requires Admission(playlists, videos, user, url, fetch).Ok?
    ensures var a := Admission(playlists, videos, user, url, fetch).value;
      var after := playlists[pid := DraftCourse(user, a.0, a.1, a.2, first)];
      Admission(after, videos + NewVideos(pid, first, a.2.videos), user, url, fetch)
        == Err(HttpError(400, "Course with YouTube ID '" + a.0 + "' already exists"))
  {
    var a := Admission(playlists, videos, user, url, fetch).value;
    var after := playlists[pid := DraftCourse(user, a.0, a.1, a.2, first)];
    assert after[pid].youtubeId == a.0;
  }

  /** The course table after `publish_course` succeeds on `id`. */
  function Publish(playlists: map<PlaylistId, Playlist>, id: PlaylistId): (r: map<PlaylistId, Playlist>)
    requires id in playlists
    ensures r.Keys == playlists.Keys && r[id].isPublished
    ensures r[id] == playlists[id].(isPublished := true)
    ensures forall p :: p in playlists && p != id ==> r[p] == playlists[p]
  {
    playlists[id := playlists[id].(isPublished := true)]
  }

  /** Publishing twice is publishing once. */
  lemma PublishIdempotent(playlists: map<PlaylistId, Playlist>, id: PlaylistId)
    requires id in playlists
    ensures Publish(Publish(playlists, id), id) == Publish(playlists, id)
  {
  }

  /** `publish_course`: 404 for an unknown course, 403 unless the caller
      created it; otherwise it sets only `is_published`. */
  method PublishCourse(db: Database, courseId: PlaylistId, user: UserId) returns (r: Result<Playlist, CourseError>)
    requires db.Valid()
    modifies db`playlists
    ensures db.Valid()
    ensures courseId !in old(db.playlists) ==> r == Err(HttpError(404, "Course not found")) && db.playlists == old(db.playlists)
    ensures courseId in old(db.playlists) && old(db.playlists)[courseId].creatorId != user ==>
      r == Err(HttpError(403, "You can only publish your own courses")) && db.playlists == old(db.playlists)
    ensures courseId in old(db.playlists) && old(db.playlists)[courseId].creatorId == user ==>
      db.playlists == Publish(old(db.playlists), courseId) && r == Ok(db.playlists[courseId])
  {
    if courseId !in db.playlists {
      return Err(HttpError(404, "Course not found"));
    }
    if db.playlists[courseId].creatorId != user {
      return Err(HttpError(403, "You can only publish your own courses"));
    }
    db.playlists := Publish(db.playlists, courseId);
    r := Ok(db.playlists[courseId]);
  }

  /** A course the public listing shows for `search`: published, and when
      a non-empty search term is given, the lower-cased term occurs in the
      lower-cased title or in the lower-cased name of its creator (the
      search joins the creator row). */
  predicate Listed(users: map<UserId, User>, playlists: map<PlaylistId, Playlist>, search: Option<string>, p: PlaylistId) {
    && p in playlists && playlists[p].isPublished
    && (search.None? || search.value == [] ||
        (playlists[p].creatorId in users &&
         (Contains(Lower(playlists[p].title), Lower(search.value)) ||
          Contains(Lower(users[playlists[p].creatorId].fullName), Lower(search.value)))))
  }

  function ListedSet(users: map<UserId, User>, playlists: map<PlaylistId, Playlist>, search: Option<string>): (s: set<PlaylistId>)
    ensures forall p :: p in s <==> Listed(users, playlists, search, p)
  {
    set p | p in playlists && Listed(users, playlists, search, p)
  }

  predicate StrictlyDecreasing(r: seq<int>) {
    forall i, j :: 0 <= i < j < |r| ==> r[i] > r[j]
  }

  /** The largest element of a non-empty finite set of integers. */
  lemma {:induction false} Max(s: set<int>) returns (m: int)
    requires s != {}
    ensures m in s && forall y :: y in s ==> y <= m
    decreases |s|
  {
    var x := Sets.Pick(s);
    if forall y :: y in s ==> y <= x {
      return x;
    }
    var z :| z in s && z > x;
    var t := s - {x};
    assert z in t;
    m := Max(t);
    forall y | y in s ensures y <= m {
      if y != x {
        assert y in t;
      }
    }
  }

  /** A non-empty finite set of integers has a largest element. */
  lemma MaxExists(s: set<int>)
    requires s != {}
    ensures exists m :: m in s && forall y :: y in s ==> y <= m
  {
    var m := Max(s);
  }

  /** The largest element of a non-empty set. */
  ghost function MaxOf(s: set<int>): (m: int)
    requires s != {}
    ensures m in s && forall y :: y in s ==> y <= m
  {
    MaxExists(s);
    var m :| m in s && forall y :: y in s ==> y <= m;
    m
  }

  /** `ORDER BY id DESC`: the elements of `s`, largest first. */
  ghost function SortedDesc(s: set<int>): (r: seq<int>)
    ensures |r| == |s|
    decreases |s|
  {
    if s == {} then [] else [MaxOf(s)] + SortedDesc(s - {MaxOf(s)})
  }

  /** The ranking holds exactly the elements of the set, in strictly
      decreasing order. */
  lemma {:induction false} SortedDescMeaning(s: set<int>)
    ensures var r := SortedDesc(s);
      (forall x :: x in r <==> x in s) && StrictlyDecreasing(r)
    decreases |s|
  {
    if s != {} {
      var m := MaxOf(s);
      var rest := SortedDesc(s - {m});
      SortedDescMeaning(s - {m});
      assert SortedDesc(s) == [m] + rest;
      forall i, j | 0 <= i < j < |[m] + rest| ensures ([m] + rest)[i] > ([m] + rest)[j] {
        if i == 0 {
          assert rest[j - 1] in s - {m};
        } else {
          assert rest[i - 1] > rest[j - 1];
        }
      }
    }
  }

  /** `OFFSET offset LIMIT size` over a ranking. */
  function Window(r: seq<int>, offset: nat, size: nat): (w: seq<int>)
    ensures |w| <= size
    ensures offset >= |r| ==> w == []
    ensures offset < |r| ==> |w| == (if offset + size <= |r| then size else |r| - offset)
    ensures forall i :: 0 <= i < |w| ==> w[i] == r[offset + i]
  {
    if offset >= |r| then [] else if offset + size <= |r| then r[offset..offset + size] else r[offset..]
  }

  /** The OFFSET of page `page` (1-based) of `size` rows. */
  function PageOffset(page: int, size: nat): (o: nat)
    requires page >= 1
    ensures page == 1 ==> o == 0
  {
    (page - 1) * size
  }

  /** `get_published_courses`: the ids of the listed courses, newest first,
      in the window of page `page` (1-based) of `size` rows, and the number
      of listed courses over all pages. */
  method GetPublishedCourses(db: Database, page: int, size: int, search: Option<string>)
    returns (ids: seq<PlaylistId>, total: nat)
    requires page >= 1 && size >= 0
    ensures total == |ListedSet(db.users, db.playlists, search)|
    ensures ids == Window(SortedDesc(ListedSet(db.users, db.playlists, search)), PageOffset(page, size), size)
  {
    var matching := ListedSet(db.users, db.playlists, search);
    total := |matching|;
    var rest := matching;
    var ranked: seq<PlaylistId> := [];
    while rest != {}
      invariant ranked + SortedDesc(rest) == SortedDesc(matching)
      decreases |rest|
    {
      MaxExists(rest);
      var m :| m in rest && forall y :: y in rest ==> y <= m;
      assert m == MaxOf(rest);
      assert (ranked + [m]) + SortedDesc(rest - {m}) == ranked + SortedDesc(rest);
      ranked := ranked + [m];
      rest := rest - {m};
    }
    ids := Window(ranked, PageOffset(page, size), size);
  }

  /** A window of a strictly decreasing ranking is strictly decreasing
      and takes its elements from the ranking. */
  lemma WindowMeaning(r: seq<int>, offset: nat, size: nat)
    requires StrictlyDecreasing(r)
    ensures var w := Window(r, offset, size);
      StrictlyDecreasing(w) && forall i :: 0 <= i < |w| ==> w[i] in r
  {
    var w := Window(r, offset, size);
    forall i | 0 <= i < |w| ensures w[i] in r {
      assert w[i] == r[offset + i];
    }
    forall i, j | 0 <= i < j < |w| ensures w[i] > w[j] {
      assert w[i] == r[offset + i] && w[j] == r[offset + j];
    }
  }

  /** Every course on a page is listed (published and matching the
      search), the page is newest first and holds at most `size` courses,
      and no page lists more than `total` courses. */
  lemma PageMeaning(users: map<UserId, User>, playlists: map<PlaylistId, Playlist>, search: Option<string>, page: nat, size: nat)
    requires page >= 1
    ensures var listed := ListedSet(users, playlists, search);
      var w := Window(SortedDesc(listed), PageOffset(page, size), size);
      && |w| <= size && |w| <= |listed|
      && StrictlyDecreasing(w)
      && (forall i :: 0 <= i < |w| ==> w[i] in listed)
  {
    var listed := ListedSet(users, playlists, search);
    var all := SortedDesc(listed);
    SortedDescMeaning(listed);
    WindowMeaning(all, PageOffset(page, size), size);
  }

  /** Different pages share no course. */
  lemma PagesDisjoint(r: seq<int>, page1: nat, page2: nat, size: nat)
    requires StrictlyDecreasing(r) && 1 <= page1 < page2
    ensures var w1 := Window(r, PageOffset(page1, size), size);
      var w2 := Window(r, PageOffset(page2, size), size);
      forall x :: x in w1 ==> x !in w2
  {
    var o1, o2 := PageOffset(page1, size), PageOffset(page2, size);
    assert o1 + size <= o2 by {
      assert page1 <= page2 - 1;
      MulMonotone(page1, page2 - 1, size);
    }
    var w1 := Window(r, o1, size);
    var w2 := Window(r, o2, size);
    forall x | x in w1 ensures x !in w2 {
      var i :| 0 <= i < |w1| && w1[i] == x;
      forall j | 0 <= j < |w2| ensures w2[j] != x {
        assert r[o1 + i] > r[o2 + j];
      }
    }
  }

  lemma MulMonotone(a: nat, b: nat, c: nat)
    requires a <= b
    ensures a * c <= b * c
  {
  }

  /** A draft is never listed; publishing a course lists it in the
      unfiltered catalogue. */
  lemma PublishLists(users: map<UserId, User>, playlists: map<PlaylistId, Playlist>, id: PlaylistId)
    requires id in playlists
    ensures !playlists[id].isPublished ==> forall s :: id !in ListedSet(users, playlists, s)
    ensures id in ListedSet(users, Publish(playlists, id), None)
  {
  }
}
