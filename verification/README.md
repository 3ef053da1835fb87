# Futon daemon: verified model

Futon is an Android automation daemon written in C++. This project models, in Dafny, the parts of it that keep
state and talk protocols, and proves what they promise over every input and every sequence of operations.

- **Debug channel** (`Bytes`, `Words`, `WsFrame`, `WsWire`, `Sha1Compression`, `Sha1`, `Sha1Laws`, `Base64`,
  `Handshake`, `WsClient`, `WsServer`, `WsDelivery`): the WebSocket frame codec of RFC 6455, a streaming SHA-1 against
  FIPS 180-4, base64 against RFC 4648, and a server with bounded buffers per client, partial sends and dropped messages.
- **Authentication** (`RateLimiter`, `Crypto`, `Sessions`, `Auth`, `AuthAnswers`, `AuthKeys`): challenges stored masked,
  one active session, attempts limited with backoff, and the guard in front of every call, composed into safety
  properties of whole runs, also together with the key whitelist.
- **Persistent stores** (`Text`, `KeyFile`, `KeyNames`, `KeyWhitelist`, `KeyHistory`, `PubkeyFile`, `UidFile`,
  `UidWhitelist`, `UidHistory`): which entries each file gives back, and under which names memory and file agree after
  every operation and restart.
- **Detection and hot path** (`Nms`, `IouCells`, `Rules`, `Tokenizer`, `RuleParser`, `RuleText`, `RuleRoundTrip`,
  `RuleMembers`, `Decimals`, `Router`, `Firing`): non-maximum suppression, a hand-written JSON tokenizer and parser, and
  a debounced priority matcher.
- **Touch injection** (`Numbers`, `TouchProtocol`, `Touch`, `Injector`): the event streams of taps, swipes and
  multi-touch calls, read by the slot protocol of the Linux kernel.

Code that changes state is modelled as classes and methods with loops. Each method is proved equal to a function of
the old state, and the properties are lemmas about those functions over arbitrary sequences of events. Time, random
bytes, operating system results, SHA-256 and signature checks are inputs. One critical section of the source is one
step. Numbers the source keeps in floating point are exact reals.

Several results say exactly when the code meets a property that does not always hold.

- `RateLimiter.CleanupInvisibleIff` and `RateLimiter.AnswersAsDueIff`: cleanup is invisible, and answers follow the
  failures counted from the events, exactly when at least one failure is allowed.
- `WsServer.CountAndLimits`: the published client count is exact exactly when no read has met a Close frame since the
  last stop, and otherwise too high by the number of such reads.
- `KeyWhitelist.AlwaysReloadsIff`: reloading gives the keys back exactly when attested package names are trimmed single
  lines. `KeyWhitelist.RejectionsHoldIff`: under any hash that gives two keys different ids, rejected keys stay out
  exactly when attested package names are harmless. `KeyNames.HarmlessMeans`: of the lines such a name adds to a key
  file every number is one, none gives a key id, and the last public key and algorithm given are not empty.
- `UidFile.FileLoadsIff`, `UidWhitelist.CleanRestartIff` and `UidWhitelist.KeysKeptIff`: the whitelist file gives the
  apps back, and registered keys survive every run, exactly when no name holds a separator or a newline.
- `RuleRoundTrip.RoundTripIff`: rules survive writing and parsing exactly when all are valid Detection rules whose
  numbers read back exactly and whose unwritten fields have their defaults. A list with an OCR rule never does, whatever
  its target holds; a quote ends a target early, as `RuleText.QuoteCutsTarget` shows.
- `Touch.MappedInRangeIff`: mapped coordinates stay in the device's range exactly when its maximum is above its minimum
  and zero lies between them.

Most operations are also told in other words, both ways: what a client was offered, what an attempt or a call is
answered, which keys and uids a store holds, which rule fires and where, each from the events alone.

Where the source's comments and its code differ, the model follows the code. A rejected key whose later attestation
succeeds is marked trusted but stays inactive. A Detection evaluation does not skip OCR rules. The client counter is
not decreased for a client that is removed after it began closing. A flag of a rule written as a word is read only if it
follows its colon at once.

## Model

| member | source | states |
|---|---|---|
| Bytes.XorInvolutive | daemon/debug/ws_frame.cpp:254-265 | exclusive-or with the same byte twice is the identity; masking, challenge storage and key encryption rest on it |
| WsFrame.ApplyMask | daemon/debug/ws_frame.cpp:254-265 | the array is masked in place, byte i with byte i mod 4 of the key, most significant first |
| WsFrame.MaskedInvolutive | daemon/debug/ws_frame.cpp:254-265 | masking twice with one key gives the data back |
| WsFrame.Encode | daemon/debug/ws_frame.cpp:145-171 | the bytes are the frame of section 5.2 of RFC 6455 with the shortest of the three length forms |
| WsFrame.Decode | daemon/debug/ws_frame.cpp:201-252 | the loops and branches compute the specified decoding, including the incomplete cases |
| WsFrame.EncodeDecode | daemon/debug/ws_frame.cpp:145-252 | decoding an encoded frame followed by anything returns its length and its fin, opcode and payload |
| WsFrame.MaskedFrameDecodes | daemon/debug/ws_frame.cpp:201-265 | a client frame masked as in section 5.3 of RFC 6455 decodes to its unmasked payload |
| WsFrame.DecodeStable | daemon/debug/ws_frame.cpp:201-252 | a frame already decoded is unchanged by bytes that arrive after it |
| WsFrame.ProperPrefixNeedsMore | daemon/debug/ws_frame.cpp:201-252 | every proper prefix of a frame asks for more bytes |
| WsFrame.ChunkingInvisible | daemon/debug/websocket_server.cpp:400-425 | any chunking of a byte stream drains to the same frames and rest as the whole |
| WsWire.DecodesIff | daemon/debug/ws_frame.cpp:201-252 | a frame is decoded exactly when the first bytes are one on the wire: final bit, reserved bits, opcode, mask bit, a length in any of its three forms, key, and payload, masked or not |
| WsWire.GivesUpIff | daemon/debug/ws_frame.cpp:201-252 | decoding throws exactly at a head whose frame is longer than 64 bits can say |
| WsWire.WiresDrain | daemon/debug/websocket_server.cpp:400-425 | a buffer that starts with whole frames drains to just these frames, and then as its rest does |
| WsWire.MaskedByWireKey | daemon/debug/ws_frame.cpp:254-265 | byte i is masked with byte i mod 4 of the key as it is on the wire |
| WsWire.EncodesShortest | daemon/debug/ws_frame.cpp:145-171 | an encoded frame is one on the wire, and no other form of it is shorter |
| Words.ChForms | daemon/debug/ws_frame.cpp:106-108 | the choice function written with "or" equals the standard's form with exclusive-or |
| Words.MajForms | daemon/debug/ws_frame.cpp:112-114 | the majority function written with "or" equals the standard's form |
| Sha1Compression.ProcessBlock | daemon/debug/ws_frame.cpp:87-133 | one block of the in-place code is the compression of section 6.1.2 of FIPS 180-4 |
| Sha1Compression.HashBytes | daemon/debug/ws_frame.cpp:65-74 | the digest is the five words, most significant byte first |
| Sha1.ZeroCountLeast | daemon/debug/ws_frame.cpp:46-64 | the number of padding zeros is the least that works, as section 5.1.1 of FIPS 180-4 asks |
| Sha1.PadWhole | daemon/debug/ws_frame.cpp:46-64 | a padded message is whole blocks |
| Sha1.Sha1.Update | daemon/debug/ws_frame.cpp:31-44 | the blocks turned so far and the buffer are always exactly the bytes fed |
| Sha1.Sha1.Finalize | daemon/debug/ws_frame.cpp:46-74 | the result is the fold of the compression over the padded message, under 2^61 bytes |
| Sha1.HashParts | daemon/debug/ws_frame.cpp:31-74 | every way of splitting a message into updates gives the SHA-1 of the whole message |
| Sha1Laws.XorBit | daemon/debug/ws_frame.cpp:254-265 | exclusive-or of bytes sets exactly the bits in which they differ |
| Sha1Laws.RoundFunctionBits | daemon/debug/ws_frame.cpp:104-118 | the three round functions bit by bit: choice, majority and parity |
| Sha1Laws.RotationBits | daemon/debug/ws_frame.cpp:97-125 | the rotations move every bit up by 1, 5 and 30 places, round the end of the word |
| Sha1Laws.FirstWordsMean | daemon/debug/ws_frame.cpp:90-95 | the first sixteen words are those of the block, most significant byte first |
| Sha1Laws.ScheduleRing | daemon/debug/ws_frame.cpp:97-100 | the schedule is that of the ring of sixteen words of section 6.2 of RFC 3174 |
| Sha1Laws.RoundSequence | daemon/debug/ws_frame.cpp:102-125 | the rounds as one sequence of words, each the sum modulo 2^32 of the last five as rotated and mixed, a constant and a word of the schedule |
| Sha1Laws.BlockAdds | daemon/debug/ws_frame.cpp:127-131 | a block adds what its rounds make of the hash to the hash, word by word |
| Sha1Laws.PaddingMeans | daemon/debug/ws_frame.cpp:46-64 | a padded message is the message, one bit, zeros and the length in bits |
| Sha1Laws.DigestMeans | daemon/debug/ws_frame.cpp:65-73 | the digest holds the five words in order, most significant byte first |
| Sha1Laws.RoundConstants | daemon/debug/ws_frame.cpp:104-118 | the round constants are the whole parts of 2^30 times the square roots of 2, 3, 5 and 10 |
| Base64.Encode | daemon/debug/ws_frame.cpp:328-346 | the shift-and-mask loop writes the groups of section 4 of RFC 4648 |
| Base64.DecodesBack | daemon/debug/ws_frame.cpp:328-346 | decoding what was encoded gives the bytes back, for every length |
| Handshake.Find | daemon/debug/ws_frame.cpp:267-299 | the first occurrence at or after a position, or none |
| Handshake.RequestReads | daemon/debug/ws_frame.cpp:267-299 | the key of a request is what stands on the line of its header, without the blanks around it |
| Handshake.RequestWithoutKey | daemon/debug/ws_frame.cpp:267-299 | a request without the header has no key |
| Handshake.ComputeAcceptKey | daemon/debug/ws_frame.cpp:314-326 | base64 of the SHA-1 of the key and the GUID of RFC 6455 |
| WsClient.Flush | daemon/debug/websocket_server.cpp:477-508 | however much each send takes, bytes sent plus bytes pending stay the same |
| WsClient.Post | daemon/debug/websocket_server.cpp:454-475 | a message is added whole or dropped whole, and the send buffer stays within its limit |
| WsClient.HandleFrame | daemon/debug/websocket_server.cpp:427-452 | a Close frame moves the client to Closing; every frame is handled once |
| WsClient.DrainClientHandles | daemon/debug/websocket_server.cpp:400-425 | without Close frames the drain loop handles exactly the frames of the buffer and keeps the incomplete rest |
| WsClient.DrainCloses | daemon/debug/websocket_server.cpp:400-452 | the drain loop moves a connected client to Closing exactly when the buffer holds a Close frame |
| WsClient.ProcessStreams | daemon/debug/websocket_server.cpp:368-425 | reading more bytes, in the handshake or after, keeps the frames handled those of the whole stream received |
| WsClient.PrefixDrains | daemon/debug/websocket_server.cpp:477-508 | any prefix of the encoded frames decodes to a prefix of the frames, never a torn one |
| WsClient.PeerSeesWholeFrames | daemon/debug/websocket_server.cpp:454-508 | a peer decoding the bytes after the greeting sees an in-order part of the frames offered |
| WsServer.FlushSend | daemon/debug/websocket_server.cpp:477-508 | the send loop computes the specified flush |
| WsServer.QueueSend | daemon/debug/websocket_server.cpp:454-475 | the queueing code computes the specified post |
| WsServer.DrainBuffer | daemon/debug/websocket_server.cpp:400-425 | the drain loop terminates and computes the specified draining |
| WsServer.ProcessClientData | daemon/debug/websocket_server.cpp:368-425 | handshake and frame processing as specified, the oversized and malformed cases included |
| WsServer.StepKeeps | daemon/debug/websocket_server.cpp:180-544 | every step keeps the invariant of buffers, logs and counter |
| WsServer.CountAndLimits | daemon/debug/websocket_server.cpp:265-316 | in every run: at most 16 clients, buffers within 8192 and 65536 bytes, and the counter is the number of Connected clients plus the reads that met a Close frame since the last stop; it never undercounts and is exact exactly without such reads |
| WsServer.CloseOvercounts | daemon/debug/websocket_server.cpp:427-452 | from every reachable state with a connected client between frames, reading a Close frame and removing the client leaves the counter too high |
| WsServer.DeliveredInOrder | daemon/debug/websocket_server.cpp:454-508 | in every run of broadcasts, pongs, partial sends and drops, for every client there is: sent plus pending bytes are the greeting and exactly the accepted frames, and the peer sees them in order |
| WsServer.DeliveredAtLeaving | daemon/debug/websocket_server.cpp:454-544 | the same for every client at the step that removes it: what it was sent is the greeting and whole frames in order, up to the one that was cut |
| WsServer.HandledWhole | daemon/debug/websocket_server.cpp:324-425 | in every run that has not failed, however the bytes were split over reads and whatever came between: a connected client has handled exactly the frames of all it received after the handshake, decoded whole, none a Close, and holds exactly the incomplete rest |
| WsServer.ReceiveChunks | daemon/debug/websocket_server.cpp:324-366 | the receive loop appends every chunk, or stops at the one that would overflow the buffer |
| WsDelivery.OfferedExactly | daemon/debug/websocket_server.cpp:180-452 | in every run a client has been offered exactly a text frame for each broadcast made while it was connected, a Pong with the payload of each Ping handled, and a Close of code 1000 for each Close handled, in that order |
| WsDelivery.OfferedAtLeaving | daemon/debug/websocket_server.cpp:180-544 | the same in the step that removes the client |
| WsDelivery.BroadcastReaches | daemon/debug/websocket_server.cpp:180-193 | a broadcast offers its text to every connected client, and is kept exactly if the client has room for it |
| WsDelivery.NothingDropped | daemon/debug/websocket_server.cpp:454-475 | in every run, if greeting and offered frames together fit the send buffer, every one of them was kept |
| WsDelivery.WaitingIsWatched | daemon/debug/websocket_server.cpp:454-508 | in every run bytes wait for a client exactly when its socket is watched for writing |
| WsDelivery.WriteDeliversAll | daemon/debug/websocket_server.cpp:477-519 | once the socket takes what waits, the client has been sent the greeting and all kept frames |
| WsDelivery.ClientProgress | daemon/debug/websocket_server.cpp:368-452 | in every run a client waits exactly as long as no blank line has come, is then greeted for the key it sent, has handled the first of the frames it sent, and is closing exactly if one of them is a Close |
| WsDelivery.ComesAndGoes | daemon/debug/websocket_server.cpp:265-544 | in every run a client comes exactly with a connection accepted below the limit, and goes when its connection ends, it sends too much or a bad request, or it is closing and nothing waits |
| WsServer.WebSocketServer.AcceptClient | daemon/debug/websocket_server.cpp:265-316 | the step of an accepted connection, and the invariant |
| WsServer.WebSocketServer.HandleClientRead | daemon/debug/websocket_server.cpp:324-366 | the step of a read, and the invariant |
| WsServer.WebSocketServer.HandleClientWrite | daemon/debug/websocket_server.cpp:510-519 | the step of a write, and the invariant |
| WsServer.WebSocketServer.BroadcastText | daemon/debug/websocket_server.cpp:180-193 | the step of a broadcast, and the invariant; `WsDelivery.BroadcastReaches` and `WsDelivery.OfferedExactly` say what that step offers to whom |
| WsServer.WebSocketServer.RemoveClientLocked | daemon/debug/websocket_server.cpp:526-544 | the client is gone, and the counter falls only if it was Connected |
| Nms.Iou | daemon/inference/bounding_box.h:98-112 | always between 0 and 1, without dividing by zero, for valid and degenerate boxes; `IouCells.IouIsCells` says which number it is |
| Nms.IouSymmetric | daemon/inference/bounding_box.h:98-112 | symmetric |
| IouCells.IouIsCells | daemon/inference/bounding_box.h:98-112 | on every grid that both boxes lie on, the ratio is the number of cells in both over the number in either |
| IouCells.IouInside | daemon/inference/bounding_box.h:98-112 | of a box inside another, the ratio is that of the areas |
| IouCells.IouOneIff | daemon/inference/bounding_box.h:98-112 | the ratio of boxes with an area is 1 exactly if they have the same corners |
| Nms.InterWithin | daemon/inference/bounding_box.h:98-112 | an overlap is positive and no larger than either box |
| Nms.Clamp | daemon/inference/bounding_box.cpp:190-203 | the result is a valid box, and valid boxes are unchanged |
| Nms.ClampIsClosest | daemon/inference/bounding_box.cpp:190-212 | of all numbers from 0 to 1, each side of the clamped box and its confidence are the closest to those of the box, the smaller side first; a negative class becomes 0 |
| Nms.ApplyNms | daemon/inference/bounding_box.cpp:143-188 | the suppression array and nested loops compute the recursive greedy selection on the sorted boxes |
| Nms.GreedyOrdered | daemon/inference/bounding_box.cpp:143-188 | the kept boxes are a subsequence of the sorted input |
| Nms.GreedyIndependent | daemon/inference/bounding_box.cpp:143-188 | no two kept boxes of one class overlap above the threshold |
| Nms.DroppedAreCovered | daemon/inference/bounding_box.cpp:143-188 | every dropped copy has a kept box of its class, at least as confident, that overlaps it above the threshold |
| Nms.KeptAndDropped | daemon/inference/bounding_box.cpp:143-188 | kept boxes of one class overlap by at most the threshold, and every dropped copy overlaps a kept one of its class by more |
| Nms.SecondRunKeepsAll | daemon/inference/bounding_box.cpp:143-188 | a second pass, however it sorts equal boxes, keeps the same multiset |
| RateLimiter.Limiter.CheckAllowed | daemon/core/auth/rate_limiter.cpp:49-97 | the answer and the entry left, in every branch; `RateLimiter.AnswersAsDueIff` says which answer is due after which events |
| RateLimiter.Limiter.RecordFailure | daemon/core/auth/rate_limiter.cpp:109-134 | the entry after a failure |
| RateLimiter.Limiter.CleanupExpired | daemon/core/auth/rate_limiter.cpp:178-193 | the loop drops exactly the entries older than the window |
| RateLimiter.CleanupInvisibleIff | daemon/core/auth/rate_limiter.cpp:49-193 | cleanups anywhere in a run change no answer, exactly when the maximum is at least one |
| RateLimiter.CleanupVisible | daemon/core/auth/rate_limiter.cpp:49-193 | with a maximum below one, a run of four events is answered differently with and without its cleanup |
| RateLimiter.AnswersAsDueIff | daemon/core/auth/rate_limiter.cpp:49-134 | in every run a check is allowed, with what is left, exactly while fewer failures than the maximum count since the uid was freed or the last gap above the window, and otherwise refused for exactly what is left of the wait; exactly when the maximum is at least one |
| RateLimiter.AnswerIsDue | daemon/core/auth/rate_limiter.cpp:49-134 | the same for one check, with the failures, their first time and the waits counted from the events |
| RateLimiter.BackoffMonotone | daemon/core/auth/rate_limiter.cpp:38-47 | more failures never mean a shorter wait |
| RateLimiter.BackoffWithin | daemon/core/auth/rate_limiter.cpp:38-47 | every wait is at least 1 and at most the cap |
| RateLimiter.BackoffIsGrown | daemon/core/auth/rate_limiter.cpp:38-47 | a wait is the initial one grown by the multiplier for every failure after the first, in whole milliseconds, or the cap |
| RateLimiter.RunsStayWithinLimits | daemon/core/auth/rate_limiter.cpp:38-134 | in every run no uid exceeds the maximum between resets, and every refusal's wait is in (0, cap] |
| RateLimiter.LockedOutUntilFreed | daemon/core/auth/rate_limiter.cpp:49-134 | once at the maximum, refused at every moment until a success, a reset or the end of the window |
| Crypto.ConstantTimeCompare | daemon/core/auth/crypto_utils.cpp:365-381 | the accumulated differences decide equality |
| Sessions.MaskInvolutive | daemon/core/auth/session_manager.cpp:86-124 | masking a challenge twice gives it back |
| Sessions.MaskIsHash | daemon/core/auth/session_manager.cpp:86-124 | what is stored differs from the challenge by just the hash of session key and nonce, repeated |
| Sessions.ChallengeComesBack | daemon/core/auth/session_manager.cpp:153-263 | the stored challenge reads back as issued for 30 seconds, then not at all |
| Sessions.OnlyIssuedValidates | daemon/core/auth/session_manager.cpp:190-238 | only the issued challenge validates, and only until it expires |
| Sessions.StatusMeans | daemon/core/auth/session_manager.cpp:379-421 | the status says whether a session is live, whether validation would pass, and exactly how much longer the session lives |
| Sessions.SessionManager.IssueChallenge | daemon/core/auth/session_manager.cpp:153-188 | the challenge is stored masked and returned |
| Sessions.SessionManager.CreateSession | daemon/core/auth/session_manager.cpp:282-322 | refresh, refuse or replace |
| Sessions.SessionManager.ValidateSession | daemon/core/auth/session_manager.cpp:324-353 | instance, owner and expiry, in that order |
| Sessions.SessionManager.CheckSession | daemon/core/auth/session_manager.cpp:379-406 | the status told, and an expired session dropped |
| Sessions.SessionManager.CleanupExpired | daemon/core/auth/session_manager.cpp:433-459 | exactly the expired session and challenges are dropped |
| Auth.OkMeansFreshSignature | daemon/core/auth/auth_manager.cpp:525-666 | in every run an OK means a signature that verifies over the bytes of the latest challenge issued to that uid, at most 30000 ms old and not used up before |
| Auth.ChallengeSpentOnce | daemon/core/auth/auth_manager.cpp:568-666 | no challenge yields two verdicts: an OK, a bad signature and a session conflict each use it up |
| Auth.CallerAuthenticated | daemon/ipc/futon_daemon_impl.cpp:77-120 | in every run a call that passes comes from the uid whose own successful authentication opened the session, live and unchanged since |
| Auth.SessionKept | daemon/core/auth/session_manager.cpp:282-377 | one step never changes a session's owner; another instance replaces it only once expired, by a successful authentication |
| Auth.LimiterRefines | daemon/core/auth/auth_manager.cpp:482-666 | each step drives the limiter by the events the limiter's run theorems assume: every failure follows an allowed check |
| Auth.FailuresWithinLimit | daemon/core/auth/auth_manager.cpp:525-666 | in every run of the whole system no uid has more failures on record than the maximum |
| Auth.LockedOut | daemon/core/auth/auth_manager.cpp:482-666 | in every run a uid out of attempts is refused at authentication and at the guard until the limit is lifted or the window passes |
| Auth.AuthManager.AuthenticateClient | daemon/core/auth/auth_manager.cpp:525-666 | result and state as specified, in every branch, with the key the whitelist search found; `AuthAnswers.AttemptAnswer` says which result follows which run |
| Auth.AuthManager.CheckAuthenticated | daemon/ipc/futon_daemon_impl.cpp:77-120 | verdict and state as specified |
| AuthAnswers.AttemptAnswer | daemon/core/auth/auth_manager.cpp:525-666 | in every run the answer to an attempt, each of them if and only if: limited, wrong device, no awaited challenge, and otherwise by the signature over the bytes of that challenge, the keys, the pin and the session in the way |
| AuthAnswers.GoodSignatureOk | daemon/core/auth/auth_manager.cpp:525-666 | in every run an admitted attempt with a good signature over the latest unused challenge of at most 30000 ms is an OK, and its uid owns the session that it opens |
| AuthAnswers.AdmittedIff | daemon/core/auth/auth_manager.cpp:525-566 | in every run a uid is admitted exactly while fewer failures than the maximum count in all that was asked of the limiter |
| AuthAnswers.SessionFate | daemon/core/auth/session_manager.cpp:282-459 | what becomes of the session in each step: opened or renewed by an OK, renewed by a call that passes, ended when idle and asked about or cleaned up, or when told to, and otherwise unchanged |
| AuthAnswers.CallPassesIff | daemon/ipc/futon_daemon_impl.cpp:77-120 | a call passes exactly if its uid is admitted, its caller trusted where asked for, and the uid owns a session idle for at most 300000 ms |
| AuthAnswers.IdleSinceUse | daemon/core/auth/session_manager.cpp:282-377 | in every run the session has been idle exactly since the last OK of its instance or call that passed |
| AuthKeys.RunIsAuthRun | daemon/core/auth/auth_manager.cpp:525-666 | a run of authentication and whitelist together is a run of authentication, so its run theorems hold of it |
| AuthKeys.WhitelistRefines | daemon/core/auth/auth_manager.cpp:582-600 | every step acts on the whitelist as one whitelist operation or not at all: an attempt that finds a key only marks it used |
| AuthKeys.RejectedNeverOk | daemon/core/auth/key_whitelist.cpp:400-493 | in every such run with harmless names, once a key is rejected no attempt ends in an OK with it, through additions, attestations and reloads, until it is removed |
| AuthKeys.OkKeyWasAttested | daemon/core/auth/key_whitelist.cpp:256-493 | in every such run an OK with a whitelisted key comes after a genuine attestation of that key |
| AuthKeys.NoEmptyId | daemon/core/auth/key_whitelist.cpp:250-254 | in every such run no key has an empty id, so that an OK without an id is one of the legacy key |
| Text.ToHex | daemon/core/auth/crypto_utils.cpp:312-323 | the loop prints two digits a byte |
| Text.FromHex | daemon/core/auth/crypto_utils.cpp:325-363 | the loop accepts exactly pairs of hexadecimal digits |
| Text.HexRoundTrip | daemon/core/auth/crypto_utils.cpp:308-363 | reading back printed bytes gives the bytes |
| Text.PrintIntReads | daemon/core/auth/uid_whitelist.cpp:410-484 | a number printed by a stream is read back by the string conversions |
| KeyFile.ParseFile | daemon/core/auth/key_whitelist.cpp:112-195 | the line loop computes the specified parse, invalid files and throwing conversions included |
| KeyFile.SavedKeyParsesIff | daemon/core/auth/key_whitelist.cpp:112-243 | parsing a saved key gives the key exactly when its texts are trimmed single lines, required ones nonempty, and it has a creation time |
| KeyFile.ParsedIsStorable | daemon/core/auth/key_whitelist.cpp:112-195 | whatever a file holds, a parsed key has what a file can hold |
| KeyFile.HandWrittenLine | daemon/core/auth/key_whitelist.cpp:112-195 | a line written by hand sets a flag by true or 1 only, and a trust without a name is pending |
| KeyNames.HarmlessMeans | daemon/core/auth/key_whitelist.cpp:112-243 | a name is harmless exactly when, of the lines it adds, every number reads, none gives a key id, and the last public key and algorithm stored are not empty |
| KeyNames.HarmlessParses | daemon/core/auth/key_whitelist.cpp:112-243 | a key whose package name adds harmless lines is read under its own id with its trust and activity |
| KeyNames.HarmfulParses | daemon/core/auth/key_whitelist.cpp:112-243 | with any other name it is not, unless the name gives that very id |
| KeyWhitelist.LoadGives | daemon/core/auth/key_whitelist.cpp:73-110 | loading any files of an agreeing directory, in any order, gives exactly their keys and does not throw |
| KeyWhitelist.AlwaysReloadsIff | daemon/core/auth/key_whitelist.cpp:256-532 | after every sequence of operations a reload gives back the same map except for last-used times, exactly when attested names are trimmed single lines |
| KeyWhitelist.RunAgrees | daemon/core/auth/key_whitelist.cpp:256-532 | after every sequence of operations the directory holds exactly the keys in memory, in a strict reading for single-line names and a weaker one for harmless names |
| KeyWhitelist.RejectedStaysOut | daemon/core/auth/key_whitelist.cpp:431-493 | with harmless names a key once rejected stays listed and never authenticates again until removed, through reloads and later successful attestations |
| KeyWhitelist.RejectionsHoldIff | daemon/core/auth/key_whitelist.cpp:73-493 | under any hash that gives two keys different ids: rejected keys stay out of every run exactly when every attested name is harmless |
| KeyWhitelist.HarmfulNameReturns | daemon/core/auth/key_whitelist.cpp:73-493 | for every other name and every key whose id the name does not itself give, under any hash, a run after which the rejected key may authenticate again without having been removed |
| KeyHistory.KeysTellHistory | daemon/core/auth/key_whitelist.cpp:256-532 | after every sequence of operations a key is there exactly if something brought it and nothing removed it since; its trust and activity, and with single-line names its whole entry but for last use, are those of its history |
| KeyHistory.BirthMeans | daemon/core/auth/key_whitelist.cpp:256-364 | the operation that brought a key was the first to do so since the last removal, and nothing has removed it since |
| KeyHistory.AcceptedIff | daemon/core/auth/key_whitelist.cpp:400-493 | after every sequence of operations a signature is accepted for an id exactly if its key was attested before any attestation of it failed, and verifies it by the algorithm it was added with |
| KeyHistory.MayEnterIff | daemon/core/auth/key_whitelist.cpp:400-493 | with harmless names, a key may authenticate exactly by the same history |
| KeyHistory.AcceptsIff | daemon/core/auth/key_whitelist.cpp:400-429 | whatever keys are loaded, which signatures are accepted: active, trusted or legacy, ECDSA for EC_P256 and Ed25519 for ED25519 |
| KeyHistory.IdIsHash | daemon/core/auth/key_whitelist.cpp:250-254 | an id is the first 16 bytes of the hash of its key |
| KeyHistory.KeyFileIff | daemon/core/auth/key_whitelist.cpp:73-110 | the files that are loaded end like key files and are not hidden |
| KeyWhitelist.VerifySignature | daemon/core/auth/key_whitelist.cpp:400-429 | an id that may authenticate and accepts the signature, never pending, if there is one at all |
| KeyWhitelist.Whitelist.AddKey | daemon/core/auth/key_whitelist.cpp:256-340 | the new store, and when it refuses |
| KeyWhitelist.Whitelist.RemoveKey | daemon/core/auth/key_whitelist.cpp:342-364 | the new store |
| KeyWhitelist.Whitelist.VerifyKeyAttestation | daemon/core/auth/key_whitelist.cpp:431-493 | the new store and the answer |
| KeyWhitelist.Whitelist.ReloadKeys | daemon/core/auth/key_whitelist.cpp:73-110 | the loop gives the specified store for any directory, and stops where a conversion throws, with the keys read so far |
| PubkeyFile.EncryptDecrypt | daemon/core/auth/auth_manager.cpp:384-449 | decryption inverts encryption: both sides extend the key stream alike |
| PubkeyFile.CipherStream | daemon/core/auth/auth_manager.cpp:384-418 | the encrypted bytes are the nonce and the plain ones, changed by a stream of hashes: of key and nonce, and then block by block of all before it and its length |
| PubkeyFile.DeriveStream | daemon/core/auth/auth_manager.cpp:395-407 | the extension loop terminates with the specified stream |
| PubkeyFile.SavedLoads | daemon/core/auth/auth_manager.cpp:225-299 | saving and loading returns the key exactly when it is nonempty |
| PubkeyFile.PrefixIsNotHex | daemon/core/auth/auth_manager.cpp:256-276 | no hexadecimal text starts like an encrypted file |
| PubkeyFile.LegacyMigrates | daemon/core/auth/auth_manager.cpp:273-288 | a plain file loads as its key and is encrypted afterwards |
| PubkeyFile.LoadAgain | daemon/core/auth/auth_manager.cpp:225-299 | loading again after any successful load returns the same key and changes the file no further |
| PubkeyFile.PubkeyStore.LoadPublicKey | daemon/core/auth/auth_manager.cpp:225-299 | key and file as specified, in every branch |
| PubkeyFile.PubkeyStore.SavePublicKey | daemon/core/auth/auth_manager.cpp:451-480 | the file as specified |
| UidFile.LineReads | daemon/core/auth/uid_whitelist.cpp:410-490 | a written line reads back as its app |
| UidFile.FileLoadsIff | daemon/core/auth/uid_whitelist.cpp:410-490 | the file gives all apps back, but for key registration times, exactly when no name holds a separator or newline |
| UidFile.LoadFile | daemon/core/auth/uid_whitelist.cpp:410-457 | the token and line loops compute the specified map |
| UidFile.SaveFile | daemon/core/auth/uid_whitelist.cpp:459-490 | the loop writes the specified text |
| UidWhitelist.StepKeeps | daemon/core/auth/uid_whitelist.cpp:90-284 | every operation and restart with plain names keeps map and file in agreement |
| UidWhitelist.KeysKeptIff | daemon/core/auth/uid_whitelist.cpp:180-284 | registered nonempty keys survive every run, shutdowns and crashes included, exactly when no name let in holds a separator or newline |
| UidWhitelist.KeyNeverChanges | daemon/core/auth/uid_whitelist.cpp:252-284 | in every run with plain names a registered nonempty key never changes |
| UidWhitelist.AwkwardNameLosesKey | daemon/core/auth/uid_whitelist.cpp:180-284 | for every other name, a run in which a registered key is lost at the next start |
| UidWhitelist.LabelReplacesKey | daemon/core/auth/uid_whitelist.cpp:180-284 | a concrete run in which the label of one app replaces the key of another at the next start |
| UidWhitelist.PendingWithinLimit | daemon/core/auth/uid_whitelist.cpp:133-178 | in every run, whatever the names, uids and times, pending requests stay within the limit and never include an authorized or denied uid |
| UidWhitelist.CleanRestartIff | daemon/core/auth/uid_whitelist.cpp:50-88 | in every run a shutdown and start gives every app back, but for key registration times, exactly when all names are plain |
| UidWhitelist.RestartKeeps | daemon/core/auth/uid_whitelist.cpp:50-88 | with plain names a crash and start loses access statistics only |
| UidHistory.UidsTellStories | daemon/core/auth/uid_whitelist.cpp:90-284 | in every run with plain names, restarts included, a uid is pending with the request that nothing has settled, and known exactly by the last decision about it, with the names and times of its authorization and the first key registered while it was authorized |
| UidHistory.AnswersTellStories | daemon/core/auth/uid_whitelist.cpp:90-284 | in every such run access, keys, requests and questions are answered exactly by that story |
| UidHistory.AccessIsCounted | daemon/core/auth/uid_whitelist.cpp:114-131 | in every step of every run but a restart, an access that is granted is counted in 32 bits, with its time, and no other is |
| UidWhitelist.Whitelist.RegisterPublicKey | daemon/core/auth/uid_whitelist.cpp:252-284 | the new store, and true only for the first key or the same key |
| UidWhitelist.Whitelist.AuthorizeUid | daemon/core/auth/uid_whitelist.cpp:180-216 | the new store, saved |
| UidWhitelist.Whitelist.Request | daemon/core/auth/uid_whitelist.cpp:133-178 | the new store and the answer |
| UidWhitelist.Whitelist.Restart | daemon/core/auth/uid_whitelist.cpp:50-88 | the store after shutdown or crash and start |
| Tokenizer.JsonTokenizer.ParseString | daemon/hotpath/rule_parser.cpp:61-96 | terminates, the position only grows, and the text left and the string read are as specified |
| Tokenizer.JsonTokenizer.ParseNumber | daemon/hotpath/rule_parser.cpp:98-123 | terminates, the position only grows, and the value is the decimal number written |
| RuleParser.ParseSingleRule | daemon/hotpath/rule_parser.cpp:190-332 | the field loop terminates with a growing position and reads the specified rule |
| RuleParser.ParseJson | daemon/hotpath/rule_parser.cpp:338-386 | terminates on every text with the specified rules, all of them valid |
| RuleParser.ParsedAreValid | daemon/hotpath/rule_parser.cpp:338-471 | the result is nothing, or exactly the valid rules of the text in text order |
| RuleMembers.FileParses | daemon/hotpath/rule_parser.cpp:338-386 | what a rule file means: the rules that its members set, from the defaults, those then valid, in order, whatever blanks are between its tokens |
| RuleMembers.EntriesRead | daemon/hotpath/rule_parser.cpp:190-332 | the members of a rule are read in any order and under either of their names, strings with their escapes, and unknown members passed over |
| RuleMembers.BlankBeforeFlagFails | daemon/hotpath/rule_parser.cpp:243-268 | a flag as a word that does not follow its colon at once fails the rule |
| RuleMembers.EmptyRule | daemon/hotpath/rule_parser.cpp:190-207 | what each field is when it is not given |
| RuleMembers.ValidIff | daemon/hotpath/rule_parser.cpp:432-471 | what makes a rule valid |
| Decimals.NumberMeans | daemon/hotpath/rule_parser.cpp:98-123 | a number with sign, fraction and exponent is read whole, as its digits moved by the two |
| RuleText.SerializeRules | daemon/hotpath/rule_parser.cpp:388-430 | the loop writes the specified text |
| RuleText.SerializedParses | daemon/hotpath/rule_parser.cpp:338-430 | parsing serialized Detection rules gives them as their numbers read, with defaults for unwritten fields, those then valid; a list whose first OCR rule has a target without quotes or backslashes gives nothing |
| RuleRoundTrip.FieldsInside | daemon/hotpath/rule_parser.cpp:190-336 | from inside a target of the written text, reading the members of a rule fails or ends inside a target, with a shorter target than the longest written |
| RuleRoundTrip.OcrNeverReturns | daemon/hotpath/rule_parser.cpp:338-430 | a list with an OCR rule never comes back, whatever characters its target holds |
| RuleRoundTrip.RoundTripIff | daemon/hotpath/rule_parser.cpp:338-430 | for every list: the round trip is exact exactly when all are valid Detection rules whose numbers read back and whose unwritten fields have their defaults |
| RuleText.QuoteCutsTarget | daemon/hotpath/rule_parser.cpp:388-430 | an OCR target closed by a quote of its own comes back cut short, in a rule of its own |
| RuleText.IntIsNumeral | daemon/hotpath/rule_parser.cpp:98-130 | a printed integer is read back as that number |
| Router.FindBestMatch | daemon/hotpath/hotpath_router.cpp:174-191 | the first detection of the class with the highest confidence strictly above the minimum, or none |
| Router.ChoiceIsFirst | daemon/hotpath/hotpath_router.cpp:78-127 | an action comes from the lowest-index rule that is matched and not debounced when its turn comes |
| Router.FiringsApart | daemon/hotpath/hotpath_router.cpp:153-166 | in every run two firings under one key are at least the later rule's interval apart |
| Router.NothingAfterComplete | daemon/hotpath/hotpath_router.cpp:78-127 | in every run nothing fires after a Complete rule |
| Router.ActionOnScreen | daemon/hotpath/hotpath_router.cpp:193-246 | every action starts on the screen |
| Firing.FrameAction | daemon/hotpath/hotpath_router.cpp:193-246 | on a frame an action starts at the pixel of the centre of the best detection, moved by the offsets and limited to the screen, with the end and the duration of its kind |
| Firing.HitsDetection | daemon/hotpath/hotpath_router.cpp:193-213 | without offsets, the start lies between the pixels of the edges of the detection |
| Firing.OcrAction | daemon/hotpath/hotpath_router.cpp:332-391 | on a text an action starts at the tap point, or at the centre of the region, moved and limited alike |
| Firing.TextMatchIff | daemon/hotpath/hotpath_router.cpp:393-414 | a text matches exactly if it is the target, or holds it where the match need not be exact, letters compared without case where case does not count |
| Firing.ReadingMatchIff | daemon/hotpath/hotpath_router.cpp:248-285 | a recognized text is for a rule exactly if it is an OCR rule, the regions agree up to a hundredth, and the text matches |
| Firing.FiresExactly | daemon/hotpath/hotpath_router.cpp:78-166 | in every run, since the last load, clear or reset, a rule fires exactly if no Complete rule has, it matches, no firing under its key was recorded less than its interval ago, and no rule before it does so too |
| Firing.RulesInForce | daemon/hotpath/hotpath_router.cpp:44-76 | in every run the rules in force are those of the last load that parsed, or none after a clear |
| Router.HotPathRouter.Evaluate | daemon/hotpath/hotpath_router.cpp:78-127 | action and state as specified; `Firing.FiresExactly` says which rule fires and `Firing.FrameAction` where |
| Router.HotPathRouter.EvaluateOcr | daemon/hotpath/hotpath_router.cpp:248-307 | action and state as specified; `Firing.ReadingMatchIff` says which reading matches and `Firing.OcrAction` where the action starts |
| Router.HotPathRouter.Load | daemon/hotpath/hotpath_router.cpp:44-62 | new rules and a cleared state, or nothing changed |
| Touch.MappedInRangeIff | daemon/input/input_injector.cpp:668-707 | mapped coordinates lie in the device's range exactly when the maximum is above the minimum and zero lies between |
| Touch.MappedKeepsDistance | daemon/input/input_injector.cpp:668-704 | mapping keeps distances on the screen, puts what is off it at its edges, and without a range changes nothing |
| Touch.GestureIsOneContact | daemon/input/input_injector.cpp:631-662 | a down, moves, up stream is read as exactly one contact at each point in turn, and leaves all slots free and BTN_TOUCH 0 |
| Touch.TapIsOneContact | daemon/input/input_injector.cpp:288-335 | a tap is one contact that stays at the mapped point |
| Touch.SwipeIsOneContact | daemon/input/input_injector.cpp:337-396 | a swipe is one contact from the mapped start, monotonically, exactly to the mapped end |
| Touch.BetweenOnWay | daemon/input/input_injector.cpp:366-372 | every step of a swipe is within a unit of the straight line |
| Injector.InputInjector.AddEvent | daemon/input/input_injector.cpp:581-598 | appended, or dropped when the buffer is full |
| Injector.InputInjector.SyncAndFlush | daemon/input/input_injector.cpp:600-625 | the buffer, and a report if there is room for it, reach the device when the write succeeds |
| Injector.InputInjector.DoTap | daemon/input/input_injector.cpp:288-335 | done exactly when all writes succeed, and then any reader with all slots free sees one contact at the mapped point and all slots free again |
| Injector.InputInjector.DoSwipe | daemon/input/input_injector.cpp:337-396 | done exactly when all writes succeed, and then any reader with all slots free sees one contact from mapped start to mapped end, monotonically, and all slots free again |
| Injector.InputInjector.MultiTouch | daemon/input/input_injector.cpp:219-280 | with 1 to 10 points the buffer never overflows: the device receives every event of every point |
| Injector.MultiRead | daemon/input/input_injector.cpp:219-280 | each point drives its own slot as its action says, and no other slot changes |
| Injector.MultiLands | daemon/input/input_injector.cpp:218-283 | a finger put down or moved is at its mapped point, one lifted is gone, and no two put down share an id |

## Left out

- Concurrency: each section under a lock is one step, and `authenticate` is one step of a sequential run; races between its separately locked parts are not modelled.
- Floating-point rounding: confidences, boxes, backoff, coordinates and numbers in rules are exact reals, without NaN or overflow.
- `parse_yolo_output` and `parse_ssd_output`: decoding of tensors, which would add arithmetic only.
- OpenSSL, certificate attestation, device fingerprint, caller verification and key pinning: their verdicts are inputs.
- Failing file writes, file permissions and audit logs: writes of the key, whitelist and public-key files succeed.
- Key files with fields the source leaves uninitialised when missing: those fields are blank in the model.
- WsServer.DrainBuffer: stops draining when handling a frame removes the client, where the source goes on with memory it has freed; a frame length over the address space ends the server, as the exception does.
- WsServer.HandledWhole: nothing is said of a client after a Close frame, for which the source gives no order of frames.
- WsFrame.Decode: for buffers up to 2^31 - 1 bytes, since the source returns the size as an int.
- WsWire.EncodesShortest: for frames without a mask, as the server sends them.
- WsDelivery.OfferedExactly: a reply to a Close is told from the frames handled, which `WsDelivery.ClientProgress` tells from the bytes received.
- Handshake.RequestReads: for keys of one line; the header name, the status line and the GUID are constants of the protocol.
- AuthAnswers.AttemptAnswer: for keys without an empty id, which `AuthKeys.NoEmptyId` shows of every run of the whole daemon.
- AuthAnswers.GoodSignatureOk: likewise.
- AuthAnswers.AdmittedIff: for limits of at least one failure, since `RateLimiter.AnswersAsDueIff` shows that with none answers do not follow the count.
- RateLimiter.AnswerIsDue: likewise.
- KeyHistory.AcceptedIff: for single-line names, as `KeyWhitelist.AlwaysReloadsIff` shows that others change entries.
- UidHistory.UidsTellStories: for plain names, as for `UidWhitelist.StepKeeps`.
- UidHistory.AnswersTellStories: likewise.
- RuleMembers.FileParses: unknown members of a rule hold values without brackets inside brackets, and one kind of blank stands between all tokens.
- KeyWhitelist.RunAgrees: for clocks and security levels that fit their types and positive clocks; a key added without attestation gets level 0, where the source leaves the level unset and writes it to the file.
- UidWhitelist.StepKeeps: for plain names and for uids and times that fit their types; `UidFile.FileLoadsIff` shows that the names matter.
- UidWhitelist.KeyNeverChanges: likewise; `UidWhitelist.KeysKeptIff` gives the exact condition on names.
- UidWhitelist.RestartKeeps: likewise; `UidWhitelist.CleanRestartIff` gives the exact condition on names.
- UidFile.FileLoadsIff: the key registration time, which the file does not hold, is 0 after loading; the source leaves it unset.
- RuleRoundTrip.RoundTripIff: the printer of reals is arbitrary, but prints the reals of the rules as numbers; infinities and NaN are not modelled.
- RuleParser.ParseJson: an integer outside its C++ type keeps its mathematical value, where the cast is undefined.
- Router.HotPathRouter.EvaluateOcr: the hash of an OCR rule's debounce key is an arbitrary function of the rule.
- Router.HotPathRouter.Evaluate: for an action number that names no action, the fields the source leaves unset are 0.
- Injector.InputInjector.SyncAndFlush: says nothing of what the device received when a write fails.
- Injector.InputInjector.MultiTouch: tracking ids are unbounded integers; the 32-bit counter does not wrap.
- Pressure and contact size: arbitrary curves, passed in.
- Shell and sendevent injection, text input, the bypass of authentication by configuration beyond `Auth.Authenticate`, the vision and inference bridges, the sandbox and process start-up: forwarding and platform code.
