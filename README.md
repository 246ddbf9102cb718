# A verified model of the surveillance core: cameras, face matching, authentication and log queries

This project is a Dafny model of the sequential core of a face-recognition
surveillance application. It covers the four modules of its `core/` package:

- **Cameras** (`camera.dfy`) models the camera manager.
  - Defaults are filled in when the camera list is loaded.
  - A network source is accepted or rejected depending on the reachability probe.
  - The manager keeps four registries keyed by camera id: threads, capture objects, stop events and frame queues. Starting, stopping and cleaning up a camera change these.
  - Each camera has a two-slot frame queue. Publishing drops the oldest frame and `get_frame` takes from the front (FIFO).
  - The capture worker has an open loop of at most three attempts, with a delay only between attempts. Its read loop stops after ten consecutive failed reads, and the failure counter resets on every successful read.
  - The worker chooses a rotation for each frame.
- **Faces** (`faces.dfy`) models the face detector.
  - A detected box is clamped and its crop extracted.
  - Age and gender are read from the analysis.
  - `recognize_faces` is a matching rule: the first maximum of the similarity scores wins, and it must be strictly above the threshold.
  - Known faces are saved under the file name `cedula_timestamp.jpg`, and the cedula is parsed back with `rsplit('_', 1)`.
  - The in-memory gallery is cleared when loaded and appended to when a face is added.
- **Auth** (`auth.dfy`) models the authentication manager.
  - Session expiry is modelled, as is the per-user list of failed attempts. An account locks after five failures within five minutes.
  - `login` checks lockout, unknown user, disabled account and wrong password, in that order.
  - Roles form a hierarchy: viewer=1, operator=2, admin=3, anything else 0.
  - `change_password` validates before it updates.
- **Database** (`database.dfy`) models statement construction for the SQLite face database.
  - `update_user` keeps only whitelisted fields and builds the `SET` clause from them.
  - `get_face_logs` builds a `WHERE` clause and its parameter list, and skips rows that fail to convert.
  - `FaceLogEntry.__post_init__` normalises the timestamp.
  - The main invariant: every `?` placeholder gets exactly one bound value.
- **Support modules**: `wrappers.dfy` (`Option`), `numbers.dfy` (truncation toward zero as `int()` does it on floats) and `strings.dfy` (`str(int)`, `float()` on decimal text, `join`, `lower`, `startswith`, counting characters).

Everything outside the program is a parameter of the operation that uses it:

- `time.time()` becomes `now` / `clock`.
- The camera reachability probe, thread start, `VideoCapture` open and read results, and the stop flag become per-step oracle inputs.
- The insightface model becomes the list of raw faces it returns. Cosine similarity becomes an abstract function `sim` over reals.
- The bcrypt check becomes `checkpw`. The database lookup, insert and update become their answers.

State that the Python code changes in place is modelled as classes:

- `CameraManager` holds five maps.
- `FaceDetector` holds the `knownFaces` sequence.
- `AuthManager` holds `failedAttempts` and `currentSession`.
- `Session` holds `lastActivity`.

Each method is proved against a function on values, and the properties are proved as lemmas about those functions.

Where the code and its documented design differ, the model follows the code:

- `get_frame` returns the **oldest** queued frame, not the newest (`core/camera_manager.py:348`).
- `load_config` clears the camera table and then adds entries one by one. An entry missing a required key raises after the earlier entries are already stored, so a malformed file yields a partial configuration, and a document without a `cameras` list raises with the table already cleared (`core/camera_manager.py:95-113`). `Cameras.CameraManager.LoadConfig` models this.
- `start_camera` returns True as soon as the thread is started, before the device is open. A camera that then fails to open keeps its thread entry (marked dead), its queue and its stop event. The main window's "running" check is dict membership, so it keeps showing such a camera as active (`ui/main_window.py:814`). `Cameras.OpenFailureScenario` exhibits this.
- When the user record has vanished, `change_password` subscripts `None` and raises instead of answering (`core/auth_manager.py:201-202`). `Auth.ChangeDecision` gives this its own outcome, `RecordMissing`, which has no reply.

## Model

| member | source | states |
|---|---|---|
| Cameras.ConfigFromEntry | core/camera_manager.py:97-107 | an entry yields a configuration exactly when it has `id`, `source` and both resolution values; otherwise the entry raises |
| Cameras.ConfigFromEntryFields | core/camera_manager.py:98-107 | required fields are copied; `name` defaults to `Camera {id}`, `enabled` to true, `fps` to 30 and `rotate` to 0 |
| Cameras.LoadedConfigs | core/camera_manager.py:95-107 | the loaded configurations are the longest prefix of entries that convert, in order, each the conversion of its entry; the entry after the last one loaded is malformed |
| Cameras.ConfigMapKeys | core/camera_manager.py:95-98 | the camera table holds exactly the ids of the loaded configurations |
| Cameras.ConfigMapLastWins | core/camera_manager.py:97-98 | when an id occurs more than once, the later configuration replaces the earlier |
| Cameras.CameraManager.LoadConfig | core/camera_manager.py:89-113 | an unreadable file raises (False) with the table unchanged; a parsed document without a usable `cameras` list (an empty file, `cameras: null`, a non-mapping) raises after the clear, leaving the table empty; a list leaves the table the map of the loaded prefix, and the load completes without raising (True) iff every entry loaded |
| Cameras.CameraManager.LoadEntries | core/camera_manager.py:96-107 | on the cleared table, the entry loop stores each converting entry under its id and stops at the first malformed one: the table is the map of the loaded prefix, and the loop finishes (True) iff every entry loaded |
| Cameras.ValidateSource | core/camera_manager.py:115-153 | a source starting with `http` or `rtsp` is valid iff the probe answered with a status below 400; every other source is valid |
| Cameras.OpenTargetOf | core/camera_manager.py:236 | a device index is opened as a device; a text source is opened as a device iff it is all (ASCII) digits, otherwise as a URL or path |
| Cameras.DigitTextOpensDevice | core/camera_manager.py:236 | the text `"n"` opens the same device as the index `n` |
| Cameras.RotationFor | core/camera_manager.py:297-302 | only 90, 180 and 270 rotate, by that many degrees clockwise (270 is counter-clockwise 90); any other value leaves the frame as read |
| Cameras.Publish | core/camera_manager.py:305-316 | publishing to a queue of at most two frames gives one or two frames, the new frame last |
| Cameras.PublishKeepsNewest | core/camera_manager.py:305-316 | a publish keeps exactly the newest two frames of the old queue plus the new frame |
| Cameras.PublishAllKeepsNewest | core/camera_manager.py:305-316 | after any run of publishes, the queue is the newest two frames of everything published |
| Cameras.Poll | core/camera_manager.py:344-350 | an empty queue yields no frame and stays empty; otherwise the front (oldest) frame is taken and the rest remains in order |
| Cameras.PublishThenPoll | core/camera_manager.py:305-350 | a frame published to an empty queue is the next frame polled |
| Cameras.PollReturnsOldest | core/camera_manager.py:348 | with two frames queued, polling returns the older; a third publish evicts the oldest |
| Cameras.OpenLoop | core/camera_manager.py:230-268 | at most three open attempts; without a stop there is a delay between attempts and none after the last; a set stop flag ends the loop before the next attempt; the loop gives up iff every attempt fails unstopped; an open capture comes from a successful attempt |
| Cameras.StopBeforeOpenAttemptsNothing | core/camera_manager.py:239 | a stop flag already set before the first attempt means no attempt and no delay |
| Cameras.ReadLoop | core/camera_manager.py:275-326 | the consecutive-failure counter never exceeds ten; the loop ends for too many failures exactly when it reaches ten; a camera's queue exists afterwards iff it existed before, and never holds more than two frames |
| Cameras.ReadLoopKeepsNewest | core/camera_manager.py:305-316 | the queue after the read loop is the newest two of its old frames followed by every frame captured |
| Cameras.ReadLoopRotates | core/camera_manager.py:297-302 | every captured frame carries the configured rotation |
| Cameras.FailedReadsOnlyCount | core/camera_manager.py:280-291 | failed reads below the limit only advance the counter; the run continues as if they had not happened |
| Cameras.FailedReadsReachLimit | core/camera_manager.py:282-288 | enough consecutive failed reads to reach ten end the loop with nothing captured |
| Cameras.TooManyFailuresNeedsFailedRun | core/camera_manager.py:275-294 | the loop ends for failures only after a run of failed reads with no success between them: the first ten minus the starting count, or ten later on |
| Cameras.NineFailuresThenSuccessContinues | core/camera_manager.py:289-294 | nine failed reads then a good one reset the counter to 0 and the loop keeps running |
| Cameras.TenFailuresStop | core/camera_manager.py:282-288 | ten failed reads in a row stop the loop |
| Cameras.Worker | core/camera_manager.py:226-340 | the read loop runs iff the capture opened |
| Cameras.GaveUpPublishesNothing | core/camera_manager.py:261-272 | a camera that fails all three opens makes three attempts with two delays and never reads or publishes |
| Cameras.RegisteredAfterRun | core/camera_manager.py:226-340 | a worker updating its own thread entry, capture object and queue keeps the registry invariant |
| Cameras.RegisteredAfterExit | core/camera_manager.py:331-340 | a worker that exits keeps the registry invariant |
| Cameras.CameraManager.Startable | core/camera_manager.py:173-186 | the three checks before `start_camera` registers anything: the id is configured, the camera is enabled, and its source validates |
| Cameras.CameraManager.UiShowsActive | ui/main_window.py:814 | the main window shows a camera as active when its id has a thread entry, alive or not |
| Cameras.CameraManager.constructor | core/camera_manager.py:24-31 | all five tables start empty and the registry invariant holds |
| Cameras.CameraManager.CleanupCameraThread | core/camera_manager.py:33-87 | the id is removed from threads, capture objects, stop events and queues; other ids and the camera table are unchanged |
| Cameras.CameraManager.StartCamera | core/camera_manager.py:171-216 | returns True iff the camera is configured, enabled and valid and its thread starts; when not startable nothing changes; on success an earlier registration is replaced by one live thread, one empty queue and one unset stop event, and no capture object; when the thread fails to start the id is left with no registrations |
| Cameras.CameraManager.CleanupIfRegistered | core/camera_manager.py:189-191 | a prior registration of the id is cleaned up before starting |
| Cameras.CameraManager.LaunchThread | core/camera_manager.py:195-216 | a started thread leaves the id with one live thread, an empty queue and an unset event; a failed start leaves it with none |
| Cameras.CameraManager.RegisterThread | core/camera_manager.py:195-209 | installs an empty queue, an unset stop event and the thread for the id |
| Cameras.CameraManager.StopCamera | core/camera_manager.py:218-224 | returns False iff the id has no thread entry, and then changes nothing; otherwise the id is absent from all four registries afterwards |
| Cameras.CameraManager.StopAllCameras | core/camera_manager.py:161-169 | all four registries are empty afterwards; the camera table is kept |
| Cameras.CameraManager.StartAllCameras | core/camera_manager.py:155-159 | each startable camera ends freshly registered, or with no registrations if its thread fails; every other camera keeps what it had |
| Cameras.CameraManager.OpenCapture | core/camera_manager.py:230-268 | the attempts follow the open loop; the capture object is stored only when the device opened |
| Cameras.CameraManager.ReadFrames | core/camera_manager.py:275-326 | the read loop follows its specification, and the new queue is stored only if the camera still has one |
| Cameras.CameraManager.CaptureFrames | core/camera_manager.py:226-340 | an unconfigured camera's worker does nothing; otherwise it runs the open and read loops; afterwards its thread is dead unless still reading, its capture object is stored if it opened, its queue is the final queue, and the registry invariant holds |
| Cameras.CameraManager.GetFrame | core/camera_manager.py:342-350 | no frame for an id without a queue or with an empty queue, and nothing changes; otherwise the oldest frame is removed and returned |
| Cameras.CameraManager.GetAllFrames | core/camera_manager.py:352-359 | each camera with a non-empty queue contributes its oldest frame, which is taken from the queue; no queue is added or removed |
| Cameras.CameraManager.GetCameraStatus | core/camera_manager.py:361-377 | none for an unconfigured id; otherwise the configured name, enabled flag and source, running iff the thread is registered and alive, and the queue size (0 without a queue, never above 2) |
| Cameras.CameraManager.GetAllCameraStatus | core/camera_manager.py:379-381 | one status per configured camera, each the camera's own status |
| Cameras.OpenFailureScenario | core/camera_manager.py:171-268 | a camera that never opens is started with True and keeps a dead thread entry and a queue; the window's membership check still shows it active |
| Cameras.ReadFailureScenario | core/camera_manager.py:218-288 | after ten failed reads the thread is dead but still registered and shown active; stopping it removes it from the window |
| Faces.Clamp | core/face_detection.py:209-213 | the clamped box lies within the image |
| Faces.CropRows | core/face_detection.py:218 | the crop has one row per clamped row, each the clamped columns of the image row |
| Faces.ExtractFaceImage | core/face_detection.py:207-218 | empty iff `x1 >= x2` or `y1 >= y2` after clamping; otherwise an image of `(y2-y1)×(x2-x1)` pixels equal to the image's pixels at offset `(y1, x1)` |
| Faces.ArgMax | core/face_detection.py:193 | the index of a largest score such that every earlier score is strictly smaller: ties go to the first |
| Faces.ArgMaxIsFirstLargest | core/face_detection.py:193 | the first largest index is unique: any index with that property is the argmax |
| Faces.Fallback | core/face_detection.py:178-203 | every face unknown with score 0.0, in input order |
| Faces.ScoresOf | core/face_detection.py:189-191 | one score per gallery entry, the similarity of its embedding with the face's |
| Faces.MatchFace | core/face_detection.py:185-199 | matching fails (numpy raises) iff the embedding is non-empty and of a different dimension from the gallery's; otherwise the result is for that face |
| Faces.MatchAll | core/face_detection.py:184-205 | the rule applies to all faces iff each face matches; then one result per face, in order |
| Faces.Recognized | core/face_detection.py:174-205 | the result of `recognize_faces`: the all-unknown fallback for an empty gallery, an unstackable gallery or any face that makes numpy raise; otherwise each face's match; its meaning is stated by the lemmas in the next rows |
| Faces.RecognizedKeepsFaces | core/face_detection.py:176-205 | one result per input face, for that face, in input order |
| Faces.EmptyGalleryRecognizesNobody | core/face_detection.py:178-179 | with an empty gallery every face is unknown with score 0.0 |
| Faces.NoEmbeddingIsUnknown | core/face_detection.py:185-187 | a face without an embedding is unknown with score 0.0 |
| Faces.MismatchGivesUp | core/face_detection.py:201-203 | one face whose embedding dimension differs makes every face unknown with score 0.0 |
| Faces.MatchRule | core/face_detection.py:193-199 | the score is the maximum similarity; the face is matched iff it is strictly above the threshold, and then to the gallery entry at the first maximum |
| Faces.HigherThresholdMatchesLess | core/face_detection.py:196 | a higher threshold keeps the score and never creates a match; a match that survives it is the same identity |
| Faces.SuffixDot | core/face_detection.py:77 | pathlib's suffix dot is neither the first nor the last character |
| Faces.StemThenSuffix | core/face_detection.py:77-92 | a file name is its stem followed by its suffix |
| Faces.IsImageFile | core/face_detection.py:77-78 | a file is loaded only when its lower-cased suffix is `.jpg`, `.jpeg` or `.png` |
| Faces.CedulaOf | core/face_detection.py:96-97 | without `_` the cedula is the whole stem; otherwise it is the prefix before the last `_` |
| Faces.FaceFileName | core/face_detection.py:235-236 | the name a face is saved under: `{cedula}_{timestamp}.jpg`; its round trip is the subject of the next rows |
| Faces.FaceFileNameSplits | core/face_detection.py:235-236 | the suffix dot of `cedula_timestamp.jpg` is the one before `jpg` |
| Faces.SuffixDotOfExtension | core/face_detection.py:77 | a non-empty stem, a dot and a dot-free extension split at that dot |
| Faces.CedulaOfSavedStem | core/face_detection.py:96-97 | parsing the stem `cedula_timestamp` gives back `cedula` |
| Faces.FaceFileNameRoundTrip | core/face_detection.py:235-236 | the saved file name has stem `cedula_timestamp` and suffix `.jpg`, is accepted as an image, and parses back to `cedula` |
| Faces.LoadedFace | core/face_detection.py:76-109 | a file yields a gallery entry iff it has an image suffix, it is readable and a face is found; the entry's cedula is parsed from the stem and its path is the file's path |
| Faces.LoadedFaces | core/face_detection.py:76-113 | never more entries than files |
| Faces.LoadedFacesAppend | core/face_detection.py:76-113 | loading is file by file, in listing order |
| Faces.SavedFaceReloads | core/face_detection.py:76-109 | a face saved by `add_known_face`, once listed from its directory, reloads with the same cedula, the stem as name, the same path and the first face's embedding (a cedula holding `/` is not listed; see Left out) |
| Faces.FromBuffer | core/face_detection.py:129 | bytes decode iff their length is a multiple of 4, into one value per 4-byte group, in order |
| Faces.RowFaces | core/face_detection.py:127-144 | never more entries than rows |
| Faces.RowFacesKeepsDecodable | core/face_detection.py:127-144 | when every embedding decodes, each row gives exactly one entry with its identity, path and decoded embedding |
| Faces.FaceDetector.constructor | core/face_detection.py:37-45 | the threshold is stored, analysis defaults to enabled, and the gallery starts empty |
| Faces.FaceDetector.GetAge | core/face_detection.py:270-274 | no age when analysis is disabled or absent; otherwise the age truncated toward zero |
| Faces.FaceDetector.GetGender | core/face_detection.py:276-282 | no gender when analysis is disabled or `sex` is missing; `Female` iff the argmax of `sex` is 1; an empty `sex` raises |
| Faces.FaceDetector.FaceOf | core/face_detection.py:157-168 | a detected face keeps the box and embedding, with the clamped crop and the age and gender estimates |
| Faces.FaceDetector.Detected | core/face_detection.py:151-172 | the faces `detect_faces` returns: none when the model raises or an estimate raises (an empty `sex`); otherwise one face per raw face, in order |
| Faces.FaceDetector.DetectFaces | core/face_detection.py:151-172 | no faces when the model raises; otherwise one face per raw face, in order, unless an estimate raises and the whole result is empty |
| Faces.FaceDetector.RecognizeFaces | core/face_detection.py:174-205 | the results are those of the matching rule over the current gallery and threshold |
| Faces.FaceDetector.LoadKnownFaces | core/face_detection.py:66-119 | the gallery is cleared, then holds the entries of the listed files in order, or stays empty when the directory does not exist |
| Faces.FaceDetector.LoadKnownFacesFromDb | core/face_detection.py:121-149 | the gallery is cleared, then holds the rows whose embeddings decode, in order; a failed fetch leaves it empty |
| Faces.FaceDetector.AddKnownFace | core/face_detection.py:220-268 | True iff the directory is made, a face is detected, the image write does not raise and no database insert fails; then exactly one entry is appended, with the first face's embedding and path `save_dir/cedula_timestamp.jpg`; otherwise the gallery is unchanged |
| Auth.Session.constructor | core/auth_manager.py:18-22 | the session holds the user, the login time and the last activity given |
| Auth.Session.IsExpired | core/auth_manager.py:24-28 | expired iff more than `timeout` minutes have passed since the last activity, strictly |
| Auth.Session.UpdateActivity | core/auth_manager.py:30-32 | the last activity becomes now |
| Auth.KeepAfter | core/auth_manager.py:80-83 | keeps exactly the attempt times strictly after the cutoff, and never adds one |
| Auth.KeepAfterAppend | core/auth_manager.py:80-83 | a time after the cutoff stays last after filtering |
| Auth.KeepAfterKeepsRecent | core/auth_manager.py:80-83 | filtering a list of recent times changes nothing |
| Auth.LockedOut | core/auth_manager.py:57-73 | locked out iff the user has five or more attempts and the last is at most 300 s old |
| Auth.AfterLockCheck | core/auth_manager.py:66-73 | the lock check resets the list of a user with five or more attempts whose last attempt is more than 300 s old, and changes nothing else |
| Auth.Recorded | core/auth_manager.py:75-85 | recording appends now to the user's list (created empty if absent) and keeps only the times after `now - 300` |
| Auth.Cleared | core/auth_manager.py:87-90 | clearing empties an existing list and adds no user |
| Auth.FewAttemptsDoNotLock | core/auth_manager.py:59-64 | no record or fewer than five attempts: not locked out and nothing changes |
| Auth.LockoutExpires | core/auth_manager.py:66-73 | with five or more attempts, a last attempt more than 300 s old empties the list and unlocks; otherwise the account is locked and the list kept |
| Auth.RecordedRemembersRecent | core/auth_manager.py:75-85 | after recording, the user's list contains now and exactly the earlier times strictly after `now - 300`; other users are unchanged |
| Auth.ClearedAddsNoUser | core/auth_manager.py:87-90 | an existing list becomes empty, no new user is added, and other users are unchanged |
| Auth.FifthRecentFailureLocks | core/auth_manager.py:57-85 | a fifth failure within five minutes locks the account for the next five minutes |
| Auth.MessageText | core/auth_manager.py:101-146 | the five messages `login` returns, with the minutes left of a lockout and the attempts left after a wrong password |
| Auth.Decide | core/auth_manager.py:99-146 | the decision of `login` in its order of checks (lockout, unknown user, disabled account, wrong password, success) and the attempts afterwards; its properties are the lemmas in the next rows |
| Auth.LoginSucceedsExactly | core/auth_manager.py:92-146 | login succeeds iff the account is not locked, exists, is active and the password checks; success returns the user and clears the attempts, failure returns no user |
| Auth.LockedAndDisabledRecordNothing | core/auth_manager.py:99-111 | a locked-out or disabled account fails without recording an attempt |
| Auth.UnknownAndWrongPasswordRecord | core/auth_manager.py:104-117 | an unknown user or a wrong password records one attempt; a wrong password reports `5 - len(attempts)` remaining |
| Auth.LoginKeepsAttemptsBounded | core/auth_manager.py:57-117 | a user's list never grows past five attempts |
| Auth.RoleLevel | core/auth_manager.py:186-189 | viewer, operator and admin have levels 1-3; any other role has level 0 |
| Auth.RoleHierarchy | core/auth_manager.py:177-191 | admin is permitted everything; an unknown required role is granted to everyone; a viewer cannot act as operator, nor an operator as admin; the permission order is transitive and total |
| Auth.ChangeDecision | core/auth_manager.py:193-215 | the outcome of `change_password` in its order of checks: session, record (a missing one raises), current password, length, update |
| Auth.PasswordChangeRules | core/auth_manager.py:193-215 | a password changes iff the user is authenticated and exists, the current password checks, the new one has at least 8 characters and the update succeeds; "too short" is reported only after the current password checks |
| Auth.AuthManager.constructor | core/auth_manager.py:35-41 | no session and no failed attempts |
| Auth.AuthManager.IsLockedOut | core/auth_manager.py:57-73 | answers the lockout rule and applies its reset of an expired lockout |
| Auth.AuthManager.RecordFailedAttempt | core/auth_manager.py:75-85 | the attempts become the recorded attempts |
| Auth.AuthManager.ClearFailedAttempts | core/auth_manager.py:87-90 | the attempts become the cleared attempts |
| Auth.AuthManager.Login | core/auth_manager.py:92-150 | success, message, user and attempts follow the login decision; a failed login keeps the session; a successful one installs a fresh session for the user, started and active now |
| Auth.AuthManager.Logout | core/auth_manager.py:152-156 | no session afterwards |
| Auth.AuthManager.IsAuthenticated | core/auth_manager.py:158-169 | True iff there was an unexpired session; an expired or absent session is cleared; a live session's activity becomes now |
| Auth.AuthManager.GetCurrentUser | core/auth_manager.py:171-175 | the session's user iff the session is authenticated; afterwards an expired session is dropped and a live one's activity time is `now`, as `is_authenticated` leaves it |
| Auth.AuthManager.HasPermission | core/auth_manager.py:177-191 | True iff authenticated and the user's role level is at least the required one; afterwards an expired session is dropped and a live one's activity time is `now`, as `is_authenticated` leaves it |
| Auth.AuthManager.ChangePassword | core/auth_manager.py:193-215 | the outcome follows the password-change decision for the current authentication state; afterwards an expired session is dropped and a live one's activity time is `now`, as `is_authenticated` leaves it |
| Database.ToFloat | core/database.py:480-486 | `float()` of a fetched value: integers and reals convert, decimal text and ASCII bytes parse, `NULL` and anything else raises |
| Database.PostInit | core/database.py:21-25 | a bytes or text timestamp becomes its float value, and the entry fails iff the text does not convert; any other timestamp and all other fields are kept |
| Database.PostInitIdempotent | core/database.py:21-25 | normalising twice is normalising once; the result never holds text or bytes |
| Database.DecimalTextConverts | core/database.py:22-25 | text and ASCII bytes holding an integer's digits convert to that integer |
| Database.Whitelisted | core/database.py:297-298 | keeps exactly the arguments named `email`, `role` or `is_active` |
| Database.WhitelistedAppend | core/database.py:298 | the whitelist keeps the arguments' order |
| Database.UserUpdate | core/database.py:297-310 | no statement iff no argument is whitelisted; otherwise the values are the kept values in order, then the user id |
| Database.UserUpdatePlaceholders | core/database.py:303-310 | the `UPDATE` has exactly one placeholder per bound value; its i-th assignment `k = ?` names the i-th kept argument, whose value is the i-th bound value; each column is assigned at most once; the user id comes last |
| Database.UpdateUser | core/database.py:294-315 | True iff a statement was built and executing it changed at least one row; an execution failure is False |
| Database.BuildFaceLogQuery | core/database.py:440-468 | building by successive appends gives the SELECT text, the filters' `WHERE` clause, `ORDER BY timestamp DESC LIMIT ?`, and the filters' values then `limit` |
| Database.ConditionsMeanFilters | core/database.py:448-462 | each given filter adds one condition and one value in the same position, in the order camera, name, start, end; together they select exactly the rows with that camera and name and a timestamp within both bounds, inclusive |
| Database.WhereIffFilter | core/database.py:464-465 | `WHERE` appears iff at least one filter is given |
| Database.FilteredQueryPlaceholders | core/database.py:464-468 | after a SELECT text without placeholders, the query has one placeholder per bound value, with `limit` last |
| Database.FaceLogQueryPlaceholders | core/database.py:440-473 | the query `get_face_logs` runs has one placeholder per bound value, with `limit` last |
| Database.EntryOf | core/database.py:478-489 | a row converts iff its timestamp and confidence convert; the entry keeps the row's fields, with a float timestamp that `__post_init__` leaves as is |
| Database.ConvertedAppend | core/database.py:476-492 | conversion proceeds row by row, in order |
| Database.ConvertedComesFromRows | core/database.py:476-492 | conversion never adds rows, and every entry is the conversion of some row |
| Database.ConvertedKeepsConvertible | core/database.py:476-494 | when every row converts, the entries are the rows' conversions one for one |
| Database.ConvertRows | core/database.py:475-494 | the loop returns the converted rows, skipping those that fail |
| Database.GetFaceLogs | core/database.py:433-498 | a failed fetch gives no entries; otherwise the entries are the fetched rows that convert, in order |
| Numbers.Trunc | core/face_detection.py:235 | `int()` of a float truncates toward zero: the result is within one of the argument, on the zero side (also the `int(...)` of the lockout minutes at `core/auth_manager.py:101`) |
| Strings.ParsePlus | core/database.py:25 | `float()` of text with a leading `+` is what the unsigned rest parses to, as `float("+1.5") == 1.5` |
| Strings.SignReadOnce | core/database.py:25 | at most one sign is read: text starting `+-` or `-+` raises |
| Strings.IntToStringParses | core/database.py:25 | `float(str(i))` is `i`: the decimal text of an integer parses back to it |

## Left out

- Threads are not modelled: their start, `join` timeouts, the lock held across the join and daemon flags. Each worker runs to the end of its given inputs inside one call, and a thread's liveness is a boolean in `captureThreads`.
- Each call observes a single instant of time `now`. Delays (`time.sleep`) are counted, not waited for.
- `cv2.VideoCapture` open and read, `cv2.imread`, whether `cv2.imwrite` raises (its return value is ignored by the source), the insightface model, `requests.head` and bcrypt are oracle inputs. `cv2.rotate` is not an input: a frame carries the rotation tag chosen by `Cameras.RotationFor`. `hash_password` is not modelled.
- Cameras.ReadLoop: `cv2.rotate` is taken never to raise. When it raises after a good read, the source resets the counter to 0, counts the exception to 1 and publishes nothing (`core/camera_manager.py:293-326`); the model does not have that path.
- Cameras.OpenTargetOf: `str.isdigit` is modelled on ASCII digits only. Python also accepts other Unicode digits: `"٣"` opens device 3, and `"²"` passes `isdigit`, makes `int` raise, and ends the worker before any open attempt (`core/camera_manager.py:236, 327-328`). The model opens both as a path.
- SQL execution, the schema, migrations and every database method outside `update_user` and `get_face_logs` are not modelled. The answer of `execute`/`fetch` is a parameter.
- Faces.ScoresOf: the cosine similarity and its normalisation are the abstract function `sim`. Floating-point rounding and NaN scores are not modelled.
- Faces.FromBuffer: the float32 decoding of four bytes is the parameter `float32`.
- Database.ToFloat: `float()` on text accepts ASCII decimals with an optional `+` or `-` sign and fraction, and nothing else. Exponents, `inf`/`nan`, underscores and surrounding whitespace are not modelled. Bytes are decoded as ASCII instead of UTF-8.
- Strings.ToLower: only ASCII letters change case, so pathlib's full Unicode `lower()` is not modelled.
- Faces.JoinPath: the path is `dir + "/" + name`, so pathlib normalisation is not modelled. A cedula holding `/` makes `add_known_face` write into a subdirectory that `glob('*.*')` does not list, so such a face is not reloaded from the directory; `Faces.SavedFaceReloads` is about a listed file and does not capture that.
- Database.BuildFaceLogQuery: the indentation inside the SQL literal of `get_face_logs` is not modelled. The SELECT text is a single-spaced string with the same columns and table.
- Database.UserUpdate: the newline and indentation around `UPDATE users SET … WHERE id = ?` (`core/database.py:308-310`) are not modelled; the statement is single-spaced. Keyword arguments are a sequence of pairs with distinct keys, as `**kwargs` guarantees.
- Cameras.CameraManager.GetAllCameraStatus: the dictionary is a map, so Python's insertion order is not modelled.
- Auth.AuthManager.Login: the outer `except` (`core/auth_manager.py:148-150`), and the `update_last_login` call are not modelled. With oracle inputs nothing on the modelled path raises.
- Faces.FaceDetector.AddKnownFace: the file system is not state in the model. The source writes the image before the database insert (`core/face_detection.py:237-248`), so when the insert fails the file stays in `save_dir` and the next `load_known_faces` lists and loads it; the model's gallery does not show that later effect.
- Faces.FaceDetector.GetAge: `hasattr(face, 'age')` is modelled as an optional age.
- The detection threshold, `max_batch_size`, `device` and the face's `kps`/`det_score` are stored or passed through in the source but decide nothing in the modelled core, so they are not modelled.
- The UI, `main.py` and the repair and migration scripts are outside this model. The only exception is the main window's liveness check, `Cameras.CameraManager.UiShowsActive`.
