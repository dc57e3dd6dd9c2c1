# smarthome-addon, modelled in Dafny

A model of the decision and byte/string logic in the LabyStudio smart-home desktop addon, with proofs of its properties. The addon comprises:

- **MJPEG frame extractor** (`MotionPictureStream`). A two-state machine over consecutive byte pairs cuts JPEG pictures out of a Motion-JPEG stream:
  - `FF D8` starts a fresh buffer and throws away any unfinished one;
  - `FF D9` inside a frame completes the buffer;
  - the decoder's result is shown and handed to every listener.

  `mjpeg.dfy` has the decoder as a pure function `Step` and its runs `Feed`/`Run`. The class `MotionPictureStream` holds the decoder's fields, and its `Read`, `Open` and `Close` are proved against those functions. It is proved that:
  - from an outside-frame state (a fresh stream), every completed buffer is exactly the input span from a start marker up to and including the first end marker after it;
  - `open()` resets neither `isInsideOfFrame` nor `buffer`, so a stream closed inside a frame and opened again may first complete its old, unfinished buffer followed by the new connection's bytes up to their first end marker; this is the only exception, from any state (`FeedYieldsSpans`, `SpliceAcrossSessions`);
  - a span broken by a new start marker is never completed;
  - every completed buffer begins `FF D8`, ends `FF D9` and has at least 4 bytes;
  - how the stream is split into reads does not matter.
- **FritzBox login** (`FritzBoxAPI`), in `fritzbox.dfy`:
  - the request URLs;
  - the 8-character challenge after `<Challenge>` and the 16-character SID after `<SID>`, including what is sliced when the marker is missing;
  - the response `challenge-md5hex`, where the hashed bytes are the UTF-16LE encoding re-read as UTF-8, which for ASCII text is each character followed by a zero byte;
  - the lowercase `%02x` hex of the digest, with a parse-back round trip;
  - the `sid` field set by `connect`.
- **Polling and retry** (`AsyncFritzBoxAPI`), in `async_fritzbox.dfy`. Each task body is modelled as one sequential step. The chain of login attempts that `connect` re-submits after failures is a loop. It is proved that:
  - the retry budget of 10 is never exceeded and never goes negative, so there are at most 11 attempts;
  - `authenticationError` is sticky;
  - the poll is skipped while the flag is set, a failed poll sets the flag, and a successful poll calls every listener in registration order;
  - the poll task is scheduled only when none is live.

  Together, `RetryMeansError` and `PollEffect` show that a login that succeeds only on a retry leaves the flag set, so no poll reaches the listeners afterwards.
- **Home indicator** (`HomeIndicatorModule`, `Client`), in `home_indicator.dfy`:
  - the filter built from a configuration entry;
  - the first-match, case-insensitive device-name lookup;
  - the reduction of a device list to one flag per nickname, proved to be the OR of `isActive` over the matching clients;
  - the module height.
- **Camera motion gate** (`IPCameraModule`), in `ip_camera.dfy`:
  - the configuration read;
  - the check interval;
  - the byte probe at an offset, where a too-short document is a silent skip;
  - the open/close decision, with its strict 60-second quiet period.

  The clock, the probe document and the mouse test are parameters.
- **Hue widget** (`HueButton`, `HueMenu`), in `hue_widget.dfy`:
  - the 31-by-31 hit box and the 8-character name truncation;
  - the button layout 35 pixels apart, from which at most one button lies under any point;
  - the first-match click.

`base.dfy` holds shared types: bytes, `Option`, and the log of listener calls. `text.dfy` holds the JDK string operations the core uses:
- `indexOf` and `substring`;
- `String.format` with `%s`;
- ASCII `equalsIgnoreCase`;
- hex encoding;
- UTF-16LE and UTF-8 encoding.

Listeners are tokens (`ListenerId`). Every call a listener receives is appended to a `deliveries` log, so call order can be stated.

## Model

| member | source | states |
|---|---|---|
| Mjpeg.StepCases | src/main/java/de/labystudio/desktopmodules/smarthome/api/mjpeg/MotionPictureStream.java:108-141 | a start marker always begins a fresh buffer holding `FF D8`, dropping any unfinished one; outside a frame every other pair, an end marker included, changes nothing; inside a frame the byte is appended and an end marker completes the buffer |
| Mjpeg.StepFramed | src/main/java/de/labystudio/desktopmodules/smarthome/api/mjpeg/MotionPictureStream.java:113-135 | one step keeps an open buffer starting `FF D8`, and a completed buffer is a whole JPEG image |
| Mjpeg.FeedEmitsImages | src/main/java/de/labystudio/desktopmodules/smarthome/api/mjpeg/MotionPictureStream.java:109-135 | every completed buffer begins `FF D8`, ends `FF D9` and has at least 4 bytes |
| Mjpeg.FeedOpenBuffer | src/main/java/de/labystudio/desktopmodules/smarthome/api/mjpeg/MotionPictureStream.java:113-131 | from any state, an open buffer is either the input from its last start marker on with no marker since, or, when no marker has been read at all, the buffer carried over from an earlier session followed by the input |
| Mjpeg.FeedYieldsSpans | src/main/java/de/labystudio/desktopmodules/smarthome/api/mjpeg/MotionPictureStream.java:113-135 | from any state, every completed buffer is the input span from a start marker to the first end marker after it, with no marker between (a span broken by a second start marker is never completed), or else the buffer carried over from a session closed inside a frame followed by the input up to its first end marker, with no marker before it |
| Mjpeg.FreshFeedYieldsSpans | src/main/java/de/labystudio/desktopmodules/smarthome/api/mjpeg/MotionPictureStream.java:113-135 | from an outside-frame state, as a fresh stream has, every completed buffer is a start-to-first-end-marker span of the input |
| Mjpeg.SpliceAcrossSessions | src/main/java/de/labystudio/desktopmodules/smarthome/api/mjpeg/MotionPictureStream.java:67-74 | a stream left inside a frame holding `FF D8 01` and reopened on `FF D9` completes `FF D8 01 FF D9`, which is no span of the new input |
| Mjpeg.FeedInsideSpan | src/main/java/de/labystudio/desktopmodules/smarthome/api/mjpeg/MotionPictureStream.java:113-131 | after a start marker and no marker since, from any state, the machine is inside a frame holding exactly the input from that marker |
| Mjpeg.SpanIsEmitted | src/main/java/de/labystudio/desktopmodules/smarthome/api/mjpeg/MotionPictureStream.java:113-137 | completeness: every marker-to-marker span is completed when its last byte is read |
| Mjpeg.FeedPrefix | src/main/java/de/labystudio/desktopmodules/smarthome/api/mjpeg/MotionPictureStream.java:74-95 | reading the first n bytes depends only on those bytes |
| Mjpeg.FeedSuffix | src/main/java/de/labystudio/desktopmodules/smarthome/api/mjpeg/MotionPictureStream.java:74-95 | reading a then a prefix of b, carrying the state and previousByte across, is reading a + b |
| Mjpeg.RunConcat | src/main/java/de/labystudio/desktopmodules/smarthome/api/mjpeg/MotionPictureStream.java:74-95 | how the stream is split into reads does not matter: the run of a + b is the run of a continued with b |
| Mjpeg.DecodedAppend | src/main/java/de/labystudio/desktopmodules/smarthome/api/mjpeg/MotionPictureStream.java:195-200 | a buffer the image decoder rejects (null) adds no picture; an accepted one adds exactly its picture |
| Mjpeg.PublishesRunNext | src/main/java/de/labystudio/desktopmodules/smarthome/api/mjpeg/MotionPictureStream.java:78-94 | one more byte of open()'s loop keeps the session equal to the decoder run: pictures are the decoded completed buffers, listener calls are those pictures to every listener in order |
| Mjpeg.PublishedIsRun | src/main/java/de/labystudio/desktopmodules/smarthome/api/mjpeg/MotionPictureStream.java:78-94 | after any number of bytes, open()'s loop has published exactly the decoder run's pictures, in stream order, each to every listener in registration order |
| Mjpeg.OpenOutcome | src/main/java/de/labystudio/desktopmodules/smarthome/api/mjpeg/MotionPictureStream.java:78-97 | at the end of input the loop's state is the run's state, still well-framed, and its calls are the old log plus every picture to every listener |
| Mjpeg.MotionPictureStream.constructor | src/main/java/de/labystudio/desktopmodules/smarthome/api/mjpeg/MotionPictureStream.java:27-45 | a new stream is not alive, loading, outside a frame with no buffer, no stream and no listeners |
| Mjpeg.MotionPictureStream.Read | src/main/java/de/labystudio/desktopmodules/smarthome/api/mjpeg/MotionPictureStream.java:108-141 | read changes insideOfFrame and buffer exactly as the machine step does and returns the decoded completed buffer, if any |
| Mjpeg.MotionPictureStream.NotifyListeners | src/main/java/de/labystudio/desktopmodules/smarthome/api/mjpeg/MotionPictureStream.java:88-90 | every listener gets the picture once, in registration order |
| Mjpeg.MotionPictureStream.Consume | src/main/java/de/labystudio/desktopmodules/smarthome/api/mjpeg/MotionPictureStream.java:80-93 | one pass of open()'s loop: a non-null frame clears loading, becomes currentFrame and goes to every listener; a null one changes none of them |
| Mjpeg.MotionPictureStream.Open | src/main/java/de/labystudio/desktopmodules/smarthome/api/mjpeg/MotionPictureStream.java:67-98 | after open the decoder state is the run over the input, loading holds iff no picture was decoded, currentFrame is the last picture, every picture went to every listener in order, when the connection cannot be made the stream is left alive and loading with nothing else changed; when it breaks mid-stream everything read so far is published and the stream stays alive without close; at a normal end the stream is not alive and close faults iff no buffer was ever made |
| Mjpeg.MotionPictureStream.Close | src/main/java/de/labystudio/desktopmodules/smarthome/api/mjpeg/MotionPictureStream.java:146-150 | close clears alive and faults (NullPointerException) iff the stream or the buffer is missing |
| Mjpeg.MotionPictureStream.RegisterListener | src/main/java/de/labystudio/desktopmodules/smarthome/api/mjpeg/MotionPictureStream.java:157-159 | the listener is appended after those already registered |
| Base.FanOutAt | src/main/java/de/labystudio/desktopmodules/smarthome/api/mjpeg/MotionPictureStream.java:88-90 | the i-th call of a fan-out goes to the i-th registered listener with the value |
| FritzBox.IsActiveExactlyOne | src/main/java/de/labystudio/desktopmodules/smarthome/api/fritzbox/model/Client.java:26-28 | isActive holds iff active is exactly "1"; null, "0", "true" and "" give false |
| FritzBox.ChallengeUrl | src/main/java/de/labystudio/desktopmodules/smarthome/api/fritzbox/FritzBoxAPI.java:19 | the challenge URL is `http://` + address + `/login_sid.lua` |
| FritzBox.LoginUrl | src/main/java/de/labystudio/desktopmodules/smarthome/api/fritzbox/FritzBoxAPI.java:20 | the login URL is `http://` + address + `/login_sid.lua?user=&response=` + response |
| FritzBox.NetworkDevicesUrl | src/main/java/de/labystudio/desktopmodules/smarthome/api/fritzbox/FritzBoxAPI.java:21 | the device-list URL is `http://` + address + `/query.lua?sid=` + sid + the fixed network query |
| Text.FormatSplit | src/main/java/de/labystudio/desktopmodules/smarthome/api/fritzbox/FritzBoxAPI.java:19-21 | `String.format` replaces the first `%s` with the first argument and continues with the rest |
| FritzBox.ChallengeFollowsMarker | src/main/java/de/labystudio/desktopmodules/smarthome/api/fritzbox/FritzBoxAPI.java:74 | the challenge is the 8 characters right after the first `<Challenge>`; slicing succeeds iff the body reaches that far |
| FritzBox.ChallengeWithoutMarker | src/main/java/de/labystudio/desktopmodules/smarthome/api/fritzbox/FritzBoxAPI.java:74 | a missing `<Challenge>` is not detected: characters 10 to 17 are taken |
| FritzBox.SidFollowsMarker | src/main/java/de/labystudio/desktopmodules/smarthome/api/fritzbox/FritzBoxAPI.java:93 | the SID is the 16 characters right after the first `<SID>`; slicing succeeds iff the body reaches that far |
| FritzBox.SidWithoutMarker | src/main/java/de/labystudio/desktopmodules/smarthome/api/fritzbox/FritzBoxAPI.java:93 | a missing `<SID>` is not detected: characters 4 to 19 are taken |
| Text.IndexOf | src/main/java/de/labystudio/desktopmodules/smarthome/api/fritzbox/FritzBoxAPI.java:74 | indexOf is the position of the first occurrence of the marker, or -1 iff there is none |
| Text.Substring | src/main/java/de/labystudio/desktopmodules/smarthome/api/fritzbox/FritzBoxAPI.java:93 | substring(b, e) succeeds iff 0 <= b <= e <= length, and is then the characters from b up to e |
| FritzBox.HashInputOfAscii | src/main/java/de/labystudio/desktopmodules/smarthome/api/fritzbox/FritzBoxAPI.java:86-87 | for ASCII text the bytes fed to MD5 are the UTF-16LE encoding, each character followed by 0x00, twice the length |
| Text.Utf16LeAscii | src/main/java/de/labystudio/desktopmodules/smarthome/api/fritzbox/FritzBoxAPI.java:87 | the UTF-16LE bytes of ASCII text are each character's code followed by a zero byte |
| Text.Utf8OfAsciiBytes | src/main/java/de/labystudio/desktopmodules/smarthome/api/fritzbox/FritzBoxAPI.java:120 | UTF-8 encoding of characters below 0x80 gives back their codes, one byte each |
| FritzBox.LoginResponseLayout | src/main/java/de/labystudio/desktopmodules/smarthome/api/fritzbox/FritzBoxAPI.java:86-90 | the response is the challenge, `-`, then 32 hex digits that parse back to the digest of challenge-password |
| FritzBox.Md5 | src/main/java/de/labystudio/desktopmodules/smarthome/api/fritzbox/FritzBoxAPI.java:118-126 | the loop builds the hex text of the digest, 32 characters |
| Text.HexAt | src/main/java/de/labystudio/desktopmodules/smarthome/api/fritzbox/FritzBoxAPI.java:121-125 | the two characters at 2i and 2i + 1 are the high and low hex digits of byte i |
| Text.HexRoundTrip | src/main/java/de/labystudio/desktopmodules/smarthome/api/fritzbox/FritzBoxAPI.java:121-125 | parsing the hex text gives back the bytes |
| Text.HexIsLowerCase | src/main/java/de/labystudio/desktopmodules/smarthome/api/fritzbox/FritzBoxAPI.java:123 | every hex digit is 0-9 or a-f |
| FritzBox.AuthenticateSucceeds | src/main/java/de/labystudio/desktopmodules/smarthome/api/fritzbox/FritzBoxAPI.java:50-94 | a login succeeds iff both the challenge and the SID exchange succeed; a challenge has 8 characters and a SID 16 |
| FritzBox.FritzBoxApi.constructor | src/main/java/de/labystudio/desktopmodules/smarthome/api/fritzbox/FritzBoxAPI.java:25-35 | the address is kept and sid starts empty |
| FritzBox.FritzBoxApi.Default | src/main/java/de/labystudio/desktopmodules/smarthome/api/fritzbox/FritzBoxAPI.java:40-42 | the default address is fritz.box |
| FritzBox.FritzBoxApi.GetChallenge | src/main/java/de/labystudio/desktopmodules/smarthome/api/fritzbox/FritzBoxAPI.java:72-75 | getChallenge fetches the challenge URL and slices the challenge |
| FritzBox.FritzBoxApi.Login | src/main/java/de/labystudio/desktopmodules/smarthome/api/fritzbox/FritzBoxAPI.java:85-94 | login sends the response for the challenge and password and slices the SID |
| FritzBox.FritzBoxApi.Connect | src/main/java/de/labystudio/desktopmodules/smarthome/api/fritzbox/FritzBoxAPI.java:50-53 | after a successful connect sid is the SID the login returned; a failed one leaves sid unchanged |
| FritzBox.FritzBoxApi.GetNetworkDevices | src/main/java/de/labystudio/desktopmodules/smarthome/api/fritzbox/FritzBoxAPI.java:61-64 | the device list is fetched with the current sid; a null result is no network, malformed JSON is an error |
| AsyncFritzBox.AttemptCases | src/main/java/de/labystudio/desktopmodules/smarthome/api/fritzbox/AsyncFritzBoxAPI.java:54-83 | a successful login schedules the poll task only when none is live and changes neither the flag nor the budget; a failure sets the flag, keeps the task, and spends one retry iff one is left, which is exactly when it reconnects |
| AsyncFritzBox.RetriedNext | src/main/java/de/labystudio/desktopmodules/smarthome/api/fritzbox/AsyncFritzBoxAPI.java:79-80 | a reconnect runs one more attempt only while the chain is pending |
| AsyncFritzBox.LoginsForAt | src/main/java/de/labystudio/desktopmodules/smarthome/api/fritzbox/AsyncFritzBoxAPI.java:57 | attempt k logs in against the router as it is at attempt k |
| AsyncFritzBox.EndedStaysEnded | src/main/java/de/labystudio/desktopmodules/smarthome/api/fritzbox/AsyncFritzBoxAPI.java:60-81 | once an attempt does not reconnect, no later attempt happens |
| AsyncFritzBox.PendingSpendsBudget | src/main/java/de/labystudio/desktopmodules/smarthome/api/fritzbox/AsyncFritzBoxAPI.java:69-70 | while the chain is pending, every attempt so far has spent exactly one retry |
| AsyncFritzBox.RetryInBudget | src/main/java/de/labystudio/desktopmodules/smarthome/api/fritzbox/AsyncFritzBoxAPI.java:25-70 | the retry counter never goes negative and never grows |
| AsyncFritzBox.AttemptsWithinBudget | src/main/java/de/labystudio/desktopmodules/smarthome/api/fritzbox/AsyncFritzBoxAPI.java:63-81 | a connect makes at most retry + 1 attempts, 11 from a fresh object |
| AsyncFritzBox.ChainEnds | src/main/java/de/labystudio/desktopmodules/smarthome/api/fritzbox/AsyncFritzBoxAPI.java:69-81 | after more attempts than retries left, the chain has ended |
| AsyncFritzBox.ErrorIsSticky | src/main/java/de/labystudio/desktopmodules/smarthome/api/fritzbox/AsyncFritzBoxAPI.java:24-66 | once set, authenticationError is never cleared by a later attempt, successful or not |
| AsyncFritzBox.RetryMeansError | src/main/java/de/labystudio/desktopmodules/smarthome/api/fritzbox/AsyncFritzBoxAPI.java:63-81 | a connect that needed a retry ends with the flag set, even when the retry logs in |
| AsyncFritzBox.PollEffect | src/main/java/de/labystudio/desktopmodules/smarthome/api/fritzbox/AsyncFritzBoxAPI.java:98-118 | with the flag set a poll does nothing; the flag afterwards is set iff it was or the fetch failed; listener calls happen only for a fetched non-null network and then go to every listener in registration order |
| AsyncFritzBox.AsyncFritzBoxApi.constructor | src/main/java/de/labystudio/desktopmodules/smarthome/api/fritzbox/AsyncFritzBoxAPI.java:22-36 | no task, no error, a budget of 10 and no listeners |
| AsyncFritzBox.AsyncFritzBoxApi.Default | src/main/java/de/labystudio/desktopmodules/smarthome/api/fritzbox/AsyncFritzBoxAPI.java:41-43 | the same with the default address |
| AsyncFritzBox.AsyncFritzBoxApi.ConnectOnce | src/main/java/de/labystudio/desktopmodules/smarthome/api/fritzbox/AsyncFritzBoxAPI.java:54-83 | one run of the connect task body changes sid, task, flag and budget as one attempt does |
| AsyncFritzBox.AsyncFritzBoxApi.Connect | src/main/java/de/labystudio/desktopmodules/smarthome/api/fritzbox/AsyncFritzBoxAPI.java:52-84 | connect and its re-submissions make between 1 and retry + 1 attempts, each against the router of its turn; every attempt but the last reconnected, the last did not; the final state is the chain's; and a retry or an earlier error leaves the flag set |
| AsyncFritzBox.AsyncFritzBoxApi.Disconnect | src/main/java/de/labystudio/desktopmodules/smarthome/api/fritzbox/AsyncFritzBoxAPI.java:89-93 | an existing task is cancelled; without one nothing happens |
| AsyncFritzBox.AsyncFritzBoxApi.UpdateNetworkDevices | src/main/java/de/labystudio/desktopmodules/smarthome/api/fritzbox/AsyncFritzBoxAPI.java:98-118 | one poll sets the flag and appends the listener calls as the poll decides |
| AsyncFritzBox.AsyncFritzBoxApi.RegisterNetworkListener | src/main/java/de/labystudio/desktopmodules/smarthome/api/fritzbox/AsyncFritzBoxAPI.java:125-127 | the listener is appended after those already registered |
| AsyncFritzBox.AsyncFritzBoxApi.SetAddress | src/main/java/de/labystudio/desktopmodules/smarthome/api/fritzbox/AsyncFritzBoxAPI.java:143-145 | the router address is replaced |
| HomeIndicator.FilterOf | src/main/java/de/labystudio/desktopmodules/smarthome/modules/HomeIndicatorModule.java:220-238 | a non-empty deviceNames array is kept in order, with the given nickname or else the first name; an absent or empty one gives no names and the nickname "Unknown", even when a nickname is given |
| HomeIndicator.ParseFilter | src/main/java/de/labystudio/desktopmodules/smarthome/modules/HomeIndicatorModule.java:220-238 | the copying constructor builds exactly that filter |
| HomeIndicator.DefaultFilter | src/main/java/de/labystudio/desktopmodules/smarthome/modules/HomeIndicatorModule.java:72-79 | the default entry is Peter with MobilePhone123 and MyComputer |
| HomeIndicator.MatchFrom | src/main/java/de/labystudio/desktopmodules/smarthome/modules/HomeIndicatorModule.java:166-175 | the position of the first matching filter from a point on, or -1 iff none matches |
| HomeIndicator.GetByDeviceName | src/main/java/de/labystudio/desktopmodules/smarthome/modules/HomeIndicatorModule.java:166-175 | a filter is found iff some filter lists the name ignoring case, and it is the first such in list order; a null name finds nothing |
| Text.EqualsIgnoreCaseIsLowerEquality | src/main/java/de/labystudio/desktopmodules/smarthome/modules/HomeIndicatorModule.java:169 | ignoring case means equal after lower-casing ASCII letters |
| HomeIndicator.VisibleIsOr | src/main/java/de/labystudio/desktopmodules/smarthome/modules/HomeIndicatorModule.java:96-106 | the keys are exactly the nicknames some client matches, and each maps to true iff some matching client is active |
| HomeIndicator.UnmatchedIsSkipped | src/main/java/de/labystudio/desktopmodules/smarthome/modules/HomeIndicatorModule.java:98-100 | a client no filter lists changes nothing |
| HomeIndicator.HeightFor | src/main/java/de/labystudio/desktopmodules/smarthome/modules/HomeIndicatorModule.java:117 | the height is 24 for no nickname and 12 per nickname plus one line otherwise |
| HomeIndicator.HomeIndicatorModule.constructor | src/main/java/de/labystudio/desktopmodules/smarthome/modules/HomeIndicatorModule.java:41-49 | no filters, nothing visible, no count yet, 230 by 24 |
| HomeIndicator.HomeIndicatorModule.LoadConfig | src/main/java/de/labystudio/desktopmodules/smarthome/modules/HomeIndicatorModule.java:59-89 | a filter array replaces the list with its filters in array order; without one the default entry is added to the configuration and the list is kept |
| HomeIndicator.HomeIndicatorModule.Accept | src/main/java/de/labystudio/desktopmodules/smarthome/modules/HomeIndicatorModule.java:92-121 | visibleClients becomes the per-nickname reduction of the device list, networkValid is set, and the size changes to 230 by HeightFor(n) exactly when the count n differs from the last one |
| IpCamera.ToSignedByte | src/main/java/de/labystudio/desktopmodules/smarthome/modules/IPCameraModule.java:79 | the cast to byte keeps the low 8 bits, read as two's complement |
| IpCamera.SameByteIffSameLowBits | src/main/java/de/labystudio/desktopmodules/smarthome/modules/IPCameraModule.java:114 | two configured values trigger on the same byte iff they agree in their low 8 bits |
| IpCamera.ProbeByte | src/main/java/de/labystudio/desktopmodules/smarthome/modules/IPCameraModule.java:107-111 | the probed byte is the one at the offset (a negative offset skips nothing); a document of at most offset bytes ends first |
| IpCamera.DecideCases | src/main/java/de/labystudio/desktopmodules/smarthome/modules/IPCameraModule.java:100-128 | the stream is opened iff the probed byte matches and it is not alive; closed iff the byte differs, it is alive, more than 60 s passed since the last open and the mouse is away; a short document does nothing |
| IpCamera.QuietPeriodIsStrict | src/main/java/de/labystudio/desktopmodules/smarthome/modules/IPCameraModule.java:121 | at exactly 60 s after the last open the stream is kept |
| IpCamera.IPCameraModule.constructor | src/main/java/de/labystudio/desktopmodules/smarthome/modules/IPCameraModule.java:32-47 | no stream, detection off, every timestamp and setting zero |
| IpCamera.IPCameraModule.LoadConfig | src/main/java/de/labystudio/desktopmodules/smarthome/modules/IPCameraModule.java:50-88 | a valid stream URL makes a new closed stream and stamps the time; with detection on and a valid probe URL the interval is seconds times 1000 and the trigger byte the low 8 bits; an invalid probe URL leaves them; with detection off and a stream, the stream is opened and the time stamped |
| IpCamera.IPCameraModule.OnTick | src/main/java/de/labystudio/desktopmodules/smarthome/modules/IPCameraModule.java:91-136 | nothing happens before the interval passes or with detection off; otherwise the check time is stamped; without a loaded motion URL nothing else changes; with a stream and a motion URL, an open stamps the motion time and issues openAsync, a close closes the stream, and anything else changes nothing |
| HueWidget.WithinBounds | src/main/java/de/labystudio/desktopmodules/smarthome/api/hue/widget/HueButton.java:46-49 | the hit test on each axis is centre - 15 to centre + 15, both ends in, 16 out |
| HueWidget.DisplayName | src/main/java/de/labystudio/desktopmodules/smarthome/api/hue/widget/HueButton.java:40 | the drawn name is a prefix of at most 8 characters: the whole name up to 8, its first 8 otherwise |
| HueWidget.HueButton.Padding | src/main/java/de/labystudio/desktopmodules/smarthome/api/hue/widget/HueButton.java:39 | the padding is 2 exactly when the mouse is within 15 pixels on both axes, 0 otherwise |
| HueWidget.HueButton.constructor | src/main/java/de/labystudio/desktopmodules/smarthome/api/hue/widget/HueButton.java:25-28 | the name is kept unchanged (it is what getName returns) |
| HueWidget.HueButton.ForRoom | src/main/java/de/labystudio/desktopmodules/smarthome/api/hue/widget/HueButton.java:30-32 | a room's button carries the room's name |
| HueWidget.HueButton.ForLight | src/main/java/de/labystudio/desktopmodules/smarthome/api/hue/widget/HueButton.java:34-36 | a light's button carries the light's name |
| HueWidget.HueMenu.constructor | src/main/java/de/labystudio/desktopmodules/smarthome/api/hue/widget/HueMenu.java:14-16 | no list is open yet |
| HueWidget.HueMenu.Open | src/main/java/de/labystudio/desktopmodules/smarthome/api/hue/widget/HueMenu.java:36-39 | the whole list is replaced and the opening time recorded |
| HueWidget.HueMenu.OpenRooms | src/main/java/de/labystudio/desktopmodules/smarthome/api/hue/widget/HueMenu.java:18-25 | one new button per room, in order, named after it; the list is not of lamps |
| HueWidget.HueMenu.OpenLights | src/main/java/de/labystudio/desktopmodules/smarthome/api/hue/widget/HueMenu.java:27-34 | one new button per light, in order, named after it; the list is of lamps |
| HueWidget.HueMenu.TickButtons | src/main/java/de/labystudio/desktopmodules/smarthome/api/hue/widget/HueMenu.java:62-69 | button i is centred at y0 and x0 - 35i when right-bound, x0 + 35i otherwise |
| HueWidget.SlotStep | src/main/java/de/labystudio/desktopmodules/smarthome/api/hue/widget/HueMenu.java:67 | neighbouring buttons are 35 pixels apart |
| HueWidget.SlotsDisjoint | src/main/java/de/labystudio/desktopmodules/smarthome/api/hue/widget/HueMenu.java:67 | the hit ranges of two different slots never overlap |
| HueWidget.LaidOutHitIsUnique | src/main/java/de/labystudio/desktopmodules/smarthome/api/hue/widget/HueMenu.java:62-69 | once laid out, at most one button lies under any point |
| HueWidget.HueMenu.Render | src/main/java/de/labystudio/desktopmodules/smarthome/api/hue/widget/HueMenu.java:41-51 | with no list open render changes nothing; otherwise the buttons are laid out |
| HueWidget.FirstHitFrom | src/main/java/de/labystudio/desktopmodules/smarthome/api/hue/widget/HueMenu.java:53-60 | the result is the first button in list order under the mouse, or null iff none is |
| HueWidget.HueMenu.OnClick | src/main/java/de/labystudio/desktopmodules/smarthome/api/hue/widget/HueMenu.java:53-60 | the first button under the mouse, or null when none is or no list is open |
| HueWidget.HueMenu.OnClickAsWritten | src/main/java/de/labystudio/desktopmodules/smarthome/api/hue/widget/HueMenu.java:53-60 | as written, a click faults iff no list was ever opened, and otherwise finds the first button under the mouse |
| HueWidget.ClickBeforeOpen | src/main/java/de/labystudio/desktopmodules/smarthome/modules/HueModule.java:54-60 | as written, any click on a menu that was never opened faults |
| HueWidget.CorrectedClickBeforeOpen | src/main/java/de/labystudio/desktopmodules/smarthome/api/hue/widget/HueMenu.java:53-60 | with the null check, a click on a menu that was never opened finds no button |

## Left out

- HTTP and stream I/O are left out: `request`, `URL.openStream` and `DataInputStream`. The router's response bodies are the parameter `fetch`, with `request`'s line joining taken as already done. The camera stream's bytes and the probe document are parameters too.
- AsyncFritzBox.PollEffect: listeners are taken never to throw, and the parsed device list and its elements never to be null. The same holds for AsyncFritzBox.AsyncFritzBoxApi.UpdateNetworkDevices. In the source the `try` also wraps the listener loop, so a throwing listener sets `authenticationError`, the listeners after it are not called, and polling stops for good. `HomeIndicatorModule.accept` throws a NullPointerException on a null device list or a null client element (for instance the body `{"network":[null]}`). The model does not capture this way of setting the flag.
- HomeIndicator.HomeIndicatorModule.Accept: the network and its clients are never null, so the NullPointerException on a null list or element is not modelled.
- Gson deserialisation is left out. The parsed `Network` (or null, or malformed) is the parameter `parseNetwork`. The module configurations are datatypes with optional keys. `Addon.getConfigValue`'s type conversions are not modelled.
- MD5 is an uninterpreted function to 16 bytes. The JDK UTF-8 decoder is a parameter. The hash-input lemma covers ASCII text and a decoder that maps ASCII bytes to themselves; non-ASCII replacement characters are not modelled.
- `equalsIgnoreCase` is modelled for ASCII letters only. Java's Unicode case folding is not modelled.
- `ImageIO.read` is a parameter that may return null. Pictures are an abstract `Image` datatype.
- Executors, `Thread.sleep`, `scheduleAtFixedRate` and cross-thread visibility of the flags are left out:
  - Each task body is one sequential method.
  - The connect chain is a loop whose k-th attempt sees the router as `world(k)`, a function of the attempt number.
  - The scheduled task is a `TaskState`.
  - `openAsync` is recorded as a command in the camera module's log rather than run.
  - A concurrent `close()` that stops a running `open()` loop is not modelled; the loop's `alive` test is kept.
- `System.currentTimeMillis` is the parameter `now`. The probe thread's later clock readings are taken as the same `now`.
- Integers are unbounded: the `long` and `int` fields are not given their Java overflow.
- The URL validity check (`MalformedURLException`) is a parameter, `validUrl`.
- All rendering is left out: textures, fonts, colours, status messages, the camera view's animation, and button drawing beyond the padding and the truncated name.
- `HueModule`, `HueAPI` and `SmartHomeAddon` are not part of this model, beyond the click path cited in the findings. `saveConfig` is not modelled.
- `isAuthenticationError`, `isAlive`, `isLoading`, `getCurrentFrame`, `isLamp` and `getName` are plain field reads. They are the fields `authenticationError`, `alive`, `loading`, `currentFrame`, `lamp` and `name`.
- HueWidget.DisplayName: lengths count Unicode code points, where Java's `length()` and `substring(0, 8)` count UTF-16 code units. A name with a character outside the Basic Multilingual Plane is cut later in the model than in Java.
- Text.Substring: positions and lengths count code points, not UTF-16 code units; `Text.IndexOf` likewise. The markers and the sliced challenge and SID are ASCII, where the two agree.
- Mjpeg.MotionPictureStream.Open: an `IIOException` from `ImageIO.read` on a corrupt frame is not a separate ending. It leaves the same state as a connection lost right after that frame's last byte with `decode` giving null for it: the buffer is complete, nothing is published, the stream stays alive and `close()` does not run.
- HueWidget.HueMenu.Open: requires the buttons to be distinct objects. This lets the layout be stated per button. The source accepts any list, and with the same button twice the later position would win.

## Findings

| source | as written | input that shows it | evidently intended | confidence | as-written member | corrected member |
|---|---|---|---|---|---|---|
| src/main/java/de/labystudio/desktopmodules/smarthome/api/hue/widget/HueMenu.java:53-60 | `onClick` loops over `buttons` without the null check `render` has, and `HueModule.onMousePressed` calls it whenever a bridge is connected | with a bridge connected, a first press outside the icon column: no list has been opened, so `buttons` is null and the loop throws NullPointerException | a click with no open list finds no button and returns null, as `render` returns early | not executed; high that it throws, since nothing opens the menu before the first press | HueWidget.ClickBeforeOpen | HueWidget.CorrectedClickBeforeOpen |
