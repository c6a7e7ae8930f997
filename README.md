# CredLyse backend core in Dafny

CredLyse turns YouTube playlists into courses. A creator submits a YouTube
URL and gets a draft course, then publishes it. Students enrol and watch the
videos. Each video can carry a quiz; passing the quizzes completes the
enrolment. A student who has watched every video and passed every quiz can
be issued a certificate. Around these services sit several supports:

- an in-process TTL/LRU cache for transcripts and generated quizzes;
- a token-bucket rate limiter keyed by user or client address;
- a retrying HTTP helper;
- the one-time passwords (OTPs) used for e-mail verification and password
  reset.

This project models that core and proves properties of the model:

| module | file | models |
|---|---|---|
| `Progress` | `progress.dfy` | `app/services/progress_service.py`: the watch-status steps (start, heartbeat, complete, grade), quiz grading, enrolment completion |
| `Certificates` | `certificates.dfy` | `app/services/certificate_service.py`: eligibility with its ordered list of missing requirements, idempotent issue, lookup |
| `Course` | `course.dfy` | `app/services/course_service.py`: course creation from a URL, publishing, the published-course listing with search and paging |
| `YouTube` | `youtube.dfy` | `parse_youtube_url` and `parse_duration` of the same file, as leftmost regular-expression search over strings |
| `Cache` | `cache.dfy` | `app/core/cache.py`: `TTLCache` as a class over an LRU key order and an entry map, plus the two global caches and their helpers |
| `RateLimit` | `rate_limit.dfy` | `app/middleware/rate_limit.py`: `TokenBucket` and `RateLimiter` as classes, key derivation, stale-bucket cleanup |
| `Otp` | `otp.dfy` | `app/services/otp_service.py`: an OTP table class with create, verify, resend check and cleanup |
| `Retry` | `retry.dfy` | `request_with_retry` of `app/core/http_client.py`, with the HTTP client as an oracle |
| `Models` | `models.dfy` | the records of `app/models/` and a `Database` class holding the tables the services share |
| `Text`, `Sets`, `Wrappers` | `text.dfy`, `sets.dfy`, `wrappers.dfy` | ASCII `strip`/`lower`, decimal text; choosing from a set; `Option`/`Result` |

Code that changes state in place stays imperative. The services that take a
database session are methods on a `Database` object, and each states the
whole new content of the tables it may modify. `TTLCache`, `TokenBucket`,
`RateLimiter` and the OTP table are classes whose methods update their
fields. Pure steps are functions, each with lemmas relating it to a
partner. Two examples are `parse_duration` against a formatter and the LRU
order against its size bound. A request that fails with an HTTP error leaves
every table unchanged, since the session is rolled back. The clock, random
draws, fresh identifiers, the password hash and the YouTube lookup are
parameters.

Behaviour of the code that the model keeps:

- `TTLCache.set` evicts the least recently used entry whenever the cache is
  full, even when the key being set is already present.
- A `max_size` below 1 makes `set` empty the cache and then fail.
- A URL with a `list=` parameter always parses as a playlist, even when it
  also names a video.
- The resend check truncates the remaining cooldown toward zero.

## Model

| member | source | states |
|---|---|---|
| `Text.StripMeaning` | app/services/progress_service.py:408 | `strip()` removes exactly the leading and trailing whitespace (the ASCII characters `str.isspace()` accepts: space, U+0009 to U+000D, U+001C to U+001F): the result is a contiguous slice of the input with no whitespace at either end, and everything cut off is whitespace |
| `Text.StripIdempotent` | app/services/progress_service.py:408 | stripping twice gives the same result as stripping once |
| `Text.DecimalRoundTrip` | app/services/otp_service.py:22 | `int(str(n)) == n` for every natural number |
| `Text.DecimalLength` | app/services/otp_service.py:22 | the decimal text has six digits exactly when the number lies in 100000..999999 |
| `Progress.Started` | app/services/progress_service.py:184-186 | starting moves NOT_STARTED to IN_PROGRESS; it never lowers the status, leaves a started row untouched and changes nothing but the status |
| `Progress.StartIdempotent` | app/services/progress_service.py:157-191 | starting a video twice has the same effect as starting it once |
| `Progress.Heartbeat` | app/services/progress_service.py:251-255 | a heartbeat overwrites the seconds watched, raises NOT_STARTED to IN_PROGRESS and keeps the quiz fields |
| `Progress.Completed` | app/services/progress_service.py:316-321 | completing sets WATCHED and keeps the seconds watched; a video without a quiz is auto-passed with score 100, while a video with one keeps its quiz result |
| `Progress.Graded` | app/services/progress_service.py:416-417 | grading records the score and the pass flag and touches neither the status nor the seconds watched |
| `Progress.Marks` | app/services/progress_service.py:402-409 | one mark per question, true exactly when the stripped, lower-cased answer under key `str(i)` (or "") equals the question's stripped, lower-cased `answer` |
| `Progress.CorrectCountIsSize` | app/services/progress_service.py:402-409 | the correct count is the number of correctly answered question positions |
| `Progress.GradingIgnoresOtherKeys` | app/services/progress_service.py:404 | answers under keys other than "0".."n-1" do not affect the count |
| `Progress.Score` | app/services/progress_service.py:412 | the score is the floor of 100·correct/total: at most 100, 100 exactly when all answers are correct |
| `Progress.PassMark` | app/services/progress_service.py:412-413 | a quiz passes (score ≥ 75) exactly when at least three quarters of the questions are answered correctly |
| `Progress.Grade` | app/services/progress_service.py:393-433 | the quiz result counts the correct positions out of the question total and passes exactly at the three-quarter mark |
| `Progress.GradingExample` | app/services/progress_service.py:402-413 | case and surrounding spaces are ignored: "A" matches "a" and "B" matches "B " |
| `Progress.QuizVideos` | app/services/progress_service.py:467 | the videos selected are exactly the listed ones that carry a quiz |
| `Progress.AllQuizzesPassed` | app/services/progress_service.py:480-485 | the early-exit loop answers true exactly when every quiz video has a progress row marked passed |
| `Progress.QuizCompletionMeaning` | app/services/progress_service.py:438-492 | an enrolment is complete exactly when the course exists, has at least one quiz video, and every quiz video's quiz is passed |
| `Progress.QuizCompletionMonotone` | app/services/progress_service.py:438-492 | passing more quizzes never undoes completion |
| `Progress.GetOrCreateEnrollment` | app/services/progress_service.py:79-115 | returns the existing enrolment unchanged, or adds and returns a fresh one (not completed, no certificate) |
| `Progress.GetOrCreateProgress` | app/services/progress_service.py:118-154 | returns the existing progress row unchanged, or adds a NOT_STARTED row with nothing watched |
| `Progress.StartVideo` | app/services/progress_service.py:157-191 | an unknown video gives 404 and changes nothing; otherwise the student is enrolled if needed and the row (created if absent) is started |
| `Progress.UpdateWatchTime` | app/services/progress_service.py:194-260 | 404 for an unknown video, a missing enrolment or a missing row, with nothing changed; otherwise exactly that row takes the heartbeat |
| `Progress.CompleteVideo` | app/services/progress_service.py:263-326 | the same three 404 cases; otherwise exactly that row is completed, auto-passing when the video has no quiz |
| `Progress.CheckAndUpdateEnrollmentCompletion` | app/services/progress_service.py:438-492 | returns the quiz-completion verdict and marks exactly that enrolment completed when it holds |
| `Progress.SubmitQuiz` | app/services/progress_service.py:329-435 | errors come in order (no quiz 400, not enrolled 404, no questions 400) and change nothing; otherwise the row (created IN_PROGRESS if absent) records the grade, and a pass completes the enrolment when all quizzes are now passed |
| `Certificates.VideoRequirementsMeaning` | app/services/certificate_service.py:86-97 | a video with no row is "not started"; otherwise "not fully watched" is reported exactly when it is not WATCHED and "quiz not passed" exactly when its quiz is not passed; nothing is reported exactly when it is done |
| `Certificates.MissingForAppend` | app/services/certificate_service.py:84-97 | the missing list of a video sequence is the lists of its parts concatenated in order |
| `Certificates.MissingForEmpty` | app/services/certificate_service.py:84-102 | nothing is missing exactly when every listed video is watched and passed |
| `Certificates.CheckEligibility` | app/services/certificate_service.py:32-102 | eligible exactly when the missing list is empty; no enrolment and an empty course each give their single message |
| `Certificates.EligibilityMeaning` | app/services/certificate_service.py:32-102 | eligible exactly when enrolled, the course has videos, and every video is watched with its quiz passed |
| `Certificates.EligibleImpliesQuizCompletion` | app/services/certificate_service.py:86-97 | an eligible student's enrolment also satisfies the quiz-completion test when the course has a quiz video |
| `Certificates.CertificateUrl` | app/services/certificate_service.py:120-160 | the URL is "/static/certificates/" followed by the id and ".pdf", with the id recoverable from the middle |
| `Certificates.CertificateUrlInjective` | app/services/certificate_service.py:120-160 | distinct certificates get distinct URLs |
| `Certificates.IssueCertificate` | app/services/certificate_service.py:163-246 | an existing certificate for the student and course is returned with nothing changed; an ineligible student gets the missing list with nothing changed; otherwise a certificate with the fresh id is stored and the enrolment becomes completed with its URL |
| `Certificates.IssueTwice` | app/services/certificate_service.py:190-199 | issuing again after a successful issue returns the same certificate and stores no second one |
| `Certificates.GetCertificate` | app/services/certificate_service.py:249-277 | found exactly when the id is stored, and then it is that certificate |
| `YouTube.FirstMatchMeaning` | app/services/course_service.py:46-58 | the search finds the leftmost match position at or after the start, or reports that there is none |
| `YouTube.Search` | app/services/course_service.py:46-58 | `re.search` fails exactly when the pattern matches nowhere; a found group is non-empty, drawn from `[a-zA-Z0-9_-]`, and 11 characters long for the video patterns |
| `YouTube.SearchFirst` | app/services/course_service.py:51-60 | trying the video patterns fails exactly when none of them matches anywhere; a found id has 11 id characters |
| `YouTube.SearchFirstOrder` | app/services/course_service.py:57-60 | the patterns are tried in order: the id found is the group of the first pattern that matches anywhere, every earlier pattern matching nowhere |
| `YouTube.ParseYoutubeUrl` | app/services/course_service.py:27-62 | a parsed id is a non-empty run of id characters, 11 long for a single video; the error message names the URL |
| `YouTube.ListParamWins` | app/services/course_service.py:45-48 | any URL with `?list=` or `&list=` before an id character parses as a playlist, with the run after the leftmost such parameter as id |
| `YouTube.ParseFailsIff` | app/services/course_service.py:45-62 | parsing fails exactly when neither the playlist pattern nor any video pattern matches anywhere in the URL |
| `YouTube.PlaylistUrlRoundTrip` | app/services/course_service.py:46-48 | a playlist id written after `?list=` is parsed back as that id, of type PLAYLIST |
| `YouTube.ShortUrlRoundTrip` | app/services/course_service.py:51-60 | an 11-character id after `youtu.be/` is parsed back as that id, of type SINGLE_VIDEO |
| `YouTube.Component` | app/services/course_service.py:81-90 | a non-zero hours, minutes or seconds component comes from a digit run followed by its designator |
| `YouTube.ParseDuration` | app/services/course_service.py:65-92 | the duration is zero exactly when every component reads 0 (absent or written as zeros), and it is at least the hours and minutes in seconds |
| `YouTube.DurationRoundTrip` | app/services/course_service.py:65-92 | `PT{h}H{m}M{s}S` parses back to 3600·h + 60·m + s |
| `YouTube.DurationExample` | app/services/course_service.py:69 | `PT1H30M45S` is 5445 seconds |
| `Course.NewVideoRow` | app/services/course_service.py:357-365 | a fetched video becomes a row of the new course with its YouTube id, title and duration, no quiz, analysis PENDING |
| `Course.NewVideosAt` | app/services/course_service.py:357-365 | the i-th fetched video is stored under the i-th new id |
| `Course.Admission` | app/services/course_service.py:312-341 | the checks run in order: a non-creator gets 403, an unparsable URL 400 with the parser's message, a YouTube id some stored course already has 400 with the "already exists" message, a lookup error is passed through unchanged; a success carries an unused YouTube id, the lookup's metadata and fresh video ids, and a creator whose every check passes gets a success |
| `Course.DraftCourse` | app/services/course_service.py:343-352 | the course belongs to the creator, records the id and type, counts the fetched videos and starts unpublished |
| `Course.AddCourseKeepsCatalog` | app/services/course_service.py:343-367 | adding the course with its videos keeps the catalogue consistent: every listed video exists and points back, and YouTube ids stay unique |
| `Course.AddCourseVideoIdsUnique` | app/models/video.py:49-53 | the unique YouTube video id constraint still holds after the insert |
| `Course.CreateCourseFromUrl` | app/services/course_service.py:285-370 | a refused request returns its error and writes nothing; an admitted one stores the draft course and exactly its fetched videos |
| `Course.InsertVideos` | app/services/course_service.py:356-365 | the loop adds exactly the rows for the fetched videos |
| `Course.CreateTwiceRefused` | app/services/course_service.py:328-338 | creating the same course a second time is refused as a duplicate, with 400 |
| `Course.Publish` | app/services/course_service.py:502 | publishing sets the flag of that course only |
| `Course.PublishIdempotent` | app/services/course_service.py:475-506 | publishing twice equals publishing once |
| `Course.PublishCourse` | app/services/course_service.py:475-506 | an unknown course gives 404 and someone else's gives 403, neither changing anything; the owner's course is published and returned |
| `Course.ListedSet` | app/services/course_service.py:393-402 | the listed courses are the published ones; with a non-empty search, only those whose lower-cased title or creator name contains it |
| `Course.SortedDescMeaning` | app/services/course_service.py:415 | the listing order is strictly decreasing by id and holds exactly the listed courses |
| `Course.Window` | app/services/course_service.py:410-414 | offset and limit keep at most `size` consecutive entries starting at the offset |
| `Course.GetPublishedCourses` | app/services/course_service.py:373-419 | the total counts every listed course, and the page is the window at `(page-1)·size` of the listing in descending id order |
| `Course.PageMeaning` | app/services/course_service.py:409-417 | a page has at most `size` courses, all listed, in strictly decreasing id order |
| `Course.PagesDisjoint` | app/services/course_service.py:410-414 | two different pages share no course |
| `Course.PublishLists` | app/services/course_service.py:394-402 | a draft is never listed, and a published course is listed when there is no search |
| `Cache.EffectiveTtl` | app/core/cache.py:95 | a missing or zero TTL falls back to the cache default; any other TTL is used as given |
| `Cache.FreshUntilExpiry` | app/core/cache.py:27-29 | an entry set now with a positive TTL is live up to and including its expiry time, and expired after it |
| `Cache.RemoveFacts` | app/core/cache.py:115-117 | removing a key from the LRU order keeps every other key, keeps keys distinct and shortens the order by one when the key was present |
| `Cache.EvictionCount` | app/core/cache.py:98-100 | the eviction loop pops just enough entries to bring the size below the limit, and none when there is room |
| `Cache.SetOrderBound` | app/core/cache.py:86-103 | after `set` the keys stay distinct, never exceed `max_size`, and the set key is the most recent |
| `Cache.SetOrderFresh` | app/core/cache.py:98-103 | with room left, a new key is appended and nothing is evicted |
| `Cache.FullSetEvictsLru` | app/core/cache.py:98-100 | on a full cache the least recently used key is gone afterwards, unless it is the key being set |
| `Cache.TTLCache.constructor` | app/core/cache.py:42-58 | a new cache is empty with zero hits and misses |
| `Cache.TTLCache.Get` | app/core/cache.py:60-84 | a missing key is a miss; an expired key is a miss and is removed; a live key is a hit, returns its value and becomes most recent |
| `Cache.TTLCache.Set` | app/core/cache.py:86-103 | the key holds the value until now plus the effective TTL, the order is the evicting LRU order, and surviving entries keep their values; with `max_size < 1` the cache is emptied and the call fails |
| `Cache.TTLCache.Delete` | app/core/cache.py:105-118 | reports whether the key was present and removes exactly it |
| `Cache.TTLCache.Clear` | app/core/cache.py:120-124 | empties the cache and resets the counters |
| `Cache.TTLCache.Stats` | app/core/cache.py:126-141 | reports size, limit and counters; the hit rate is 100·hits/(hits+misses), or 0 with no lookups, and lies in 0..100 |
| `Cache.NewTranscriptCache` | app/core/cache.py:146-150 | the transcript cache holds 1000 entries for one hour |
| `Cache.NewQuizCache` | app/core/cache.py:152-156 | the quiz cache holds 500 entries for four hours |
| `Cache.GetCachedTranscript` | app/core/cache.py:161-163 | the stored transcript of a live entry, otherwise `None`, so a cached `None` and a miss look alike; the cache changes as `get` changes it (miss counted, expired entry removed, or hit counted and key made most recent) |
| `Cache.CacheTranscript` | app/core/cache.py:166-168 | the transcript is stored under the default TTL, the key order becomes the evicting LRU order of `set`, and every surviving entry keeps its value |
| `Cache.GetCachedQuiz` | app/core/cache.py:171-173 | the stored quiz of a live entry, otherwise nothing; the cache changes as `get` changes it (miss counted, expired entry removed, or hit counted and key made most recent) |
| `Cache.CacheQuiz` | app/core/cache.py:176-178 | the quiz is stored under the default TTL, the key order becomes the evicting LRU order of `set`, and every surviving entry keeps its value |
| `Cache.GetCacheStats` | app/core/cache.py:181-186 | reports each cache's `stats()`: size, limit, hits, misses and hit rate |
| `Cache.SetThenGet` | tests/test_cache.py:16-23 | a value set is returned by the next get and counts one hit |
| `Cache.ExpiresAfterTtl` | tests/test_cache.py:33-48 | a one-second entry is returned at once and is gone 1.1 s later |
| `Cache.LruEviction` | tests/test_cache.py:50-69 | in a three-entry cache, touching key1 and adding key4 evicts key2 and keeps key1, key3 and key4 |
| `Cache.StatsTracking` | tests/test_cache.py:71-87 | two hits and one miss give a hit rate of 200/3 percent |
| `RateLimit.Refilled` | app/middleware/rate_limit.py:53-63 | a refill adds elapsed time × rate tokens, capped at the capacity, and moves the refill time to now |
| `RateLimit.Consumed` | app/middleware/rate_limit.py:36-51 | after the refill, a request succeeds exactly when enough tokens remain, and only a success spends them |
| `RateLimit.BucketBounds` | app/middleware/rate_limit.py:36-63 | with a monotone clock, tokens stay between 0 and the capacity, and a refill never removes tokens |
| `RateLimit.NoElapsedNoRefill` | app/middleware/rate_limit.py:53-63 | a refill with no elapsed time changes nothing |
| `RateLimit.BurstAllowsTokens` | app/middleware/rate_limit.py:36-51 | at a single instant, a bucket holding m tokens admits exactly the first m requests |
| `RateLimit.FreshBucketBurst` | app/middleware/rate_limit.py:32-51 | a new bucket admits exactly `capacity` requests in a burst |
| `RateLimit.TokenBucket.constructor` | app/middleware/rate_limit.py:32-34 | a new bucket is full, last refilled now |
| `RateLimit.TokenBucket.Refill` | app/middleware/rate_limit.py:53-63 | the bucket takes the refilled state |
| `RateLimit.TokenBucket.Consume` | app/middleware/rate_limit.py:36-51 | the verdict and the new state are those of `Consumed` |
| `RateLimit.FirstField` | app/middleware/rate_limit.py:103 | the first comma-separated field is the longest comma-free prefix |
| `RateLimit.GetKey` | app/middleware/rate_limit.py:90-107 | an authenticated user is keyed `user:<id>`; otherwise `ip:` followed by the stripped first X-Forwarded-For field, the client host, or "unknown" |
| `RateLimit.KeysSeparateUsers` | app/middleware/rate_limit.py:90-107 | a user's key is shared only by requests of the same user |
| `RateLimit.CleanupPartition` | app/middleware/rate_limit.py:142-151 | every bucket is either removed as stale or kept as fresh, so the removed count is the drop in size |
| `RateLimit.RateLimiter.constructor` | app/middleware/rate_limit.py:73-88 | a new limiter has no buckets, with refill rate requests_per_minute/60 |
| `RateLimit.RateLimiter.GetBucket` | app/middleware/rate_limit.py:109-116 | returns the key's bucket, creating a full one if there is none, and changes no other bucket |
| `RateLimit.RateLimiter.IsAllowed` | app/middleware/rate_limit.py:118-130 | only the request's own bucket, created full if new, spends a token; the verdict is that of `Consumed` |
| `RateLimit.RateLimiter.Cleanup` | app/middleware/rate_limit.py:132-151 | exactly the buckets idle longer than `max_age` are removed, the others keep their state, and the count removed is returned |
| `RateLimit.NewDefaultLimiter` | app/middleware/rate_limit.py:157 | the default limiter allows bursts of 10 and one request per second |
| `RateLimit.NewAiLimiter` | app/middleware/rate_limit.py:160 | the AI limiter allows bursts of 3 and one request every six seconds |
| `RateLimit.UserKeyExample` | tests/test_rate_limit.py:98-114 | an authenticated request is keyed by its user id, whatever its address |
| `RateLimit.BlocksRequestsOverBurst` | tests/test_rate_limit.py:79-96 | a burst of three admits three requests and refuses the fourth |
| `RateLimit.CleanupRemovesStale` | tests/test_rate_limit.py:116-137 | cleanup with `max_age` 0 removes a bucket once time has passed |
| `Otp.GenerateOtp` | app/services/otp_service.py:20-22 | a code is six decimal digits with no leading zero, whose value is the draw plus 100000 |
| `Otp.GenerateOtpInjective` | app/services/otp_service.py:20-22 | different draws give different codes |
| `Otp.Invalidate` | app/services/otp_service.py:48-57 | no unused code for the address and purpose survives the delete |
| `Otp.NewRecord` | app/services/otp_service.py:63-74 | a new code is unused, stored under the lower-cased address, and expires `OTP_EXPIRE_MINUTES` after its creation |
| `Otp.MarkUsed` | app/services/otp_service.py:119-121 | verification marks the code used at the current time and changes nothing else |
| `Otp.Cleaned` | app/services/otp_service.py:181-186 | cleanup keeps exactly the records that are neither expired nor used, unchanged |
| `Otp.NewestCreation` | app/services/otp_service.py:146-159 | the query finds the newest creation time among this address's codes for the purpose created after the threshold, or nothing |
| `Otp.Trunc` | app/services/otp_service.py:166 | `int()` truncates toward zero |
| `Otp.ResendVerdictMeaning` | app/services/otp_service.py:161-171 | a resend is allowed exactly when no recent code exists or less than one whole second of cooldown remains; a refusal reports the remaining whole seconds, at least 1 |
| `Otp.CreateMeaning` | app/services/otp_service.py:48-79 | after creation the new code is the only unused one for the address and purpose, every other record is untouched, and at most one unused code per address and purpose remains |
| `Otp.VerifyAfterCreate` | app/services/otp_service.py:30-124 | a freshly issued code verifies until it expires, and no older code of the same address and purpose verifies any more |
| `Otp.VerifiableUnique` | app/services/otp_service.py:103-114 | at most one record matches the verification query, so the single-result lookup is well defined |
| `Otp.VerifyOnce` | app/services/otp_service.py:100-124 | once a code has verified, the same code never verifies again |
| `Otp.MarkUsedKeepsInvariant` | app/services/otp_service.py:119-122 | verification keeps at most one unused code per address and purpose |
| `Otp.CleanupKeepsVerifiable` | app/services/otp_service.py:181-186 | cleanup never deletes a code that would still verify; a code exactly at its expiry no longer verifies yet survives cleanup if unused |
| `Otp.CleanupCount` | app/services/otp_service.py:174-188 | the deleted count plus the surviving records is the original number of records |
| `Otp.ResendRefusedAfterCreate` | app/services/otp_service.py:127-171 | right after a code is issued, a resend is refused with the full cooldown remaining |
| `Otp.ResendAllowedAfterCooldown` | app/services/otp_service.py:127-171 | once every code of the address and purpose is older than the cooldown, a resend is allowed |
| `Otp.OtpTable.CreateOtp` | app/services/otp_service.py:30-79 | returns the generated code; the table loses its unused codes for the address and purpose and gains the new record with the code's hash |
| `Otp.OtpTable.VerifyOtp` | app/services/otp_service.py:82-124 | succeeds exactly when an unused, unexpired code with this hash exists for the lower-cased address and purpose; success marks that record used, failure changes nothing |
| `Otp.OtpTable.CanResendOtp` | app/services/otp_service.py:127-171 | the answer is the resend verdict for the newest recent code of the lower-cased address |
| `Otp.OtpTable.CleanupExpiredOtps` | app/services/otp_service.py:174-188 | the table keeps exactly the live unused codes, and the number deleted is returned |
| `Retry.Final` | app/core/http_client.py:106-127 | a decisive response is returned as it is, even a 5xx; a decisive exception propagates |
| `Retry.Backoff` | app/core/http_client.py:113 | each wait is at least the 0.5 s base |
| `Retry.BackoffDoubles` | app/core/http_client.py:113 | the first wait is the base and each later wait doubles the previous one |
| `Retry.RequestWithRetry` | app/core/http_client.py:80-131 | the client is called until the first decisive attempt, at most `max_retries + 1` times; that attempt decides the reply, with a wait of 0.5·2^k after each earlier attempt k; a negative `max_retries` makes no call and raises the trailing HTTPError |
| `Retry.RetryOnServerError` | tests/test_http_client.py:42-62 | a 500 then a 200 gives the 200 after two calls and one half-second wait |
| `Retry.NoRetryOnSuccess` | tests/test_http_client.py:65-79 | a first-try success calls once and never waits |
| `Retry.RaisesAfterMaxRetries` | tests/test_http_client.py:82-94 | with two retries, constant connection errors make three calls and re-raise the error; with the module's 0.5 s base the waits are 0.5 s and 1 s |
| `Retry.LastServerErrorReturned` | app/core/http_client.py:111-118 | a 5xx on the last attempt is returned, not raised |
| `Retry.OtherErrorPropagates` | app/core/http_client.py:107-127 | an exception other than the three transient ones propagates on the first attempt |

## Left out

- Database sessions, SQL, commits and refreshes are not modelled. The tables
  are maps in a `Database` object. Every error path leaves them as they were,
  because the request's session is rolled back.
- Concurrency is not modelled, including two requests racing past a unique
  check. The cache's and limiter's thread-safety claims are out of scope as
  well.
- The clock (`time.time()`, `datetime.now`) is a `now` parameter of type
  real. `created_at`, set by the database, is that same `now`.
- The rate limiter assumes a clock that never runs backwards (`now >=
  last_refill`). Its token bounds need that.
- `secrets.randbelow` is a `draw` parameter below 900000. `uuid4`
  identifiers and new row ids are fresh-id parameters.
- `hash_otp` (SHA-256) is a function `hash` that the OTP table is built
  with. Its collision resistance is not modelled.
- `OTP_EXPIRE_MINUTES` and `OTP_RESEND_COOLDOWN_SECONDS` are parameters,
  because `app/core/config.py` does not declare them. `Settings`
  (app/core/config.py:13-43) is a pydantic `BaseSettings` without either
  field, so as written `settings.OTP_EXPIRE_MINUTES`
  (app/services/otp_service.py:65) and `settings.OTP_RESEND_COOLDOWN_SECONDS`
  (app/services/otp_service.py:143) raise `AttributeError` on every call.
  The model describes the behaviour once those settings exist.
- `fetch_youtube_metadata`, `fetch_playlist_metadata` and
  `fetch_video_metadata` call the YouTube API. They are a `fetch` parameter
  that returns course metadata or an error.
- `generate_certificate_pdf` renders a PDF to disk. Only the URL it returns
  is modelled.
- `Progress.Score`: the code computes `int((correct / total) * 100)` in
  floating point. That can fall one below the exact floor the model uses,
  for example 28 for 29 of 100. It never changes the pass verdict, because
  a ratio of exactly three quarters is exact in binary floating point.
- `Cache.TTLCache.Stats`: the hit rate is left unrounded, while the code
  rounds it to two decimals.
- The quiz cache stores JSON dictionaries. The model uses a generic value
  type, and instantiates the quiz cache with strings.
- Questions are graded against their `answer` key, which is the key
  progress_service.py:405 reads.
- Quiz JSON is reduced to "has a `questions` list" plus "has other keys",
  which is what the emptiness test at progress_service.py:353 needs.
- The listing search treats `%` and `_` in the search term literally,
  although SQL `LIKE` would read them as wildcards.
- Lower-casing covers ASCII letters only. The source strings are Unicode.
- Text.StripMeaning: whitespace is the ASCII whitespace of `str.isspace()`.
  Non-ASCII whitespace that Python's `strip()` also removes (U+0085, U+00A0,
  U+1680, U+2000 to U+200A, U+2028, U+2029, U+202F, U+205F, U+3000) is not
  modelled, because strings here are taken as ASCII.
- `RateLimitMiddleware` and the `rate_limit` decorator (rate_limit.py
  165-223) are not part of this model. They only wrap `is_allowed` in a 429
  response.
- `get_with_retry` and `post_with_retry` are not part of this model. They
  are one-line wrappers around `request_with_retry`.
- The `print` logging in `request_with_retry` and the services is not
  modelled.
- The unreachable `raise last_exception` at http_client.py:129-130 is shown
  dead instead of modelled.
- `get_course_by_id`, `get_creator_courses`, `get_user_enrollments` and
  `get_video_with_playlist` are not modelled as separate operations. The
  lookups they perform appear inside the operations that use them.
- Column length limits (e-mail, title, URL sizes) are not modelled.
- `Course.GetPublishedCourses`: requires `page >= 1` and `size >= 0`. The
  endpoint's query bounds at app/api/v1/endpoints/courses.py:75-76 enforce
  both (`ge=1` on each), and the service does not check them itself.
