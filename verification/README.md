# A model of the signaling and frame-transport code

This project models the parts of the repository whose correctness depends on state kept
across many calls: a WebSocket signaling server, the shared-memory rings that carry audio
and video frames between processes, a lock-free seqlock with several consumers, the
incremental framing of two text protocols, an outgoing message queue, and the byte and
file arithmetic of plane packing and log rotation. Each part is described by functions on
values that say what one handler or one step does. Objects whose methods update fields in
place are classes, and their methods are proved against those functions; the theorems are
about whole runs of the functions, so they hold of the objects too.

| file | what it models |
|---|---|
| Basics.dfy | bytes, options and the joining of chunks, used throughout |
| OrderedKeys.dfy | the ascending key order of `std::map` |
| Registry.dfy | the client registry: ids, unique names, call pairing |
| Signaling.dfy, SignalingServer.dfy | the server's handlers as steps, and the object that performs them |
| CallSessions.dfy, SignalingLog.dfy, SessionCounts.dfy, Heartbeat.dfy | what whole runs of the server guarantee |
| Membership.dfy | who is online, what the rosters say, and how every request is answered, in terms of the run |
| ShmRing.dfy | the bounded ring in shared memory (audio ring, and video ring with 8 slots of 2 MiB) |
| FramePipeline.dfy | mailbox, IO thread, ring and capture loop as interleaved steps with explicit wait sets |
| Progress.dfy | that its threads, left to themselves, deliver everything |
| Stopping.dfy | how the pipeline's threads end, and that they do what the ring's operations do |
| Seqlock.dfy | the multi-consumer frame ring: writer steps, lock-free readers, the two writers |
| ConsumerTable.dfy | consumer slots, their bit mask and the poll loop |
| LineFraming.dfy | newline-terminated lines |
| TextScan.dfy, HttpFraming.dfy | find and atoi, responses framed by Content-Length (section 10.4 of RFC 1945) |
| HttpResponses.dfy, SignIn.dfy | responses as a server writes them, what the client finds in them, the peer list, and what reading a response does to the client |
| OutgoingQueue.dfy | the engine's pending messages on top of the client's control socket |
| ClientLife.dfy | whom messages go to and which request each step puts on the wire |
| ResponseEffects.dfy | what each kind of response does to client and queue, cut in any way |
| VideoPath.dfy | decoded pictures on that path |
| PlanePacking.dfy | copying strided I420 planes into one buffer |
| LogRotation.dfy | the log file and its numbered history files |
| PcmRing.dfy | the eight-slot PCM ring of the loopback program |

`dafny verify dfyconfig.toml` checks everything.

Several copies of the same classes exist in the repository; one of each is modelled.
`ShmVideoWriter::WriteFrame` and the video reader of the user interface differ from the
audio ones only in their constants, so `ShmRing`, whose capacity and slot size are
parameters, is both rings. The mailbox and IO loop of `ShmVideoRenderer` are those of
`ShmAudioRenderer` but for one check: the audio source rejects an oversize frame before
the mailbox, the video source leaves that to the writer. `FramePipeline` has the check as
a parameter, and `VideoPath` connects it to the packed pictures.

## What does not hold, and exactly when it does

- `Hangup(a, b)` clears both members whoever they are. It keeps the pairing intact if and
  only if each of the two is idle, absent or the other's partner (`HangupKeepsIff`); the
  `leave` handler meets this because it takes the partner from `GetPeer`.
- A response is delivered whole, however it is cut into reads, if and only if it ends
  where its header block alone declares (`CuttingDoesNotMatter`). What comes out is
  independent of the cutting if and only if the response does not go beyond that end
  (`IndependentIff`): a shorter one comes out of no cutting. It ends there if and only if
  its body has the length its length field stands for (`FramedIff`): the number itself
  from 0 on, no body at all for a negative number down to minus the size of the header
  block, and 2^64 less its amount below that. A blank length followed by nothing but
  blanks stands for 0. So a blank length fails with every body but the empty one, -5 fails
  with a body, and -1000 behind a shorter header block fails with an empty body, which
  then never completes (`LengthsThatFail`).
- What is left of a half-read response stays in the buffer. The next response comes out by
  itself if and only if nothing was left (`LeftoverIff`); otherwise the client takes the
  leftover and what follows for one response (`SessionIndependentOfCutting`).
- The client closes its control socket on a response, which is what lets the next message
  go, if and only if the first `Connection` line says exactly `close` (`ClosesIff`,
  `NoCloseWithout`, `ResponseSendsNext`). A sign-out that waits for such a response goes on
  the wire if and only if it does; and while more messages wait, that same response is then
  taken for the answer to the sign-out (`WaitingSignOutIff`). An error response that asks for
  the close puts the next message on the wire only to cut it off (`ErrorDisconnects`).
- A good sign-in response without an id leaves the client connected under no id, and it can
  then send nothing (`NoIdGiven`). A response without a blank in its status line may have its
  length taken for the status: it then counts as good if and only if its body has 200 bytes
  (`LengthTakenForStatus`).
- The line buffer of the control socket survives its client. The next client's lines are
  its own if and only if the previous stream ended in a newline, or the next one holds no
  complete line (`ReconnectKeepsLinesIff`). An empty message or one with a newline is not
  recovered from `Send` (`SendRoundTrips`).
- `CaptureLoop` divides by `channels * (bits_per_sample / 8)`, and the header keeps 16 bits
  of each. The sink is called with what was offered if and only if both fit and a sample
  frame is not empty (`SinkSeesOffer`).
- Taking back a seqlock announcement after a failed blit fools some reader that looks only
  afterwards if and only if the slot's cells are not those last published (`AbortSafeIff`),
  and some reader that looks before the announcement and afterwards if and only if they
  were not after some of the writer's steps, even if restored in the end (`AbortSpanIff`).
- A log file found at start is appended to but not counted, so the limits hold over every
  run if and only if there was nothing in it and the history files found are within the
  limits themselves (`FoundFileBreaksBound`). The number of
  history files stays within `max_files` over every run if and only if that is at least 1
  (`LimitKeptIff`); below 1 one file is kept all the same.
- A message whose turn comes is dropped, and not kept, exactly when the client is not signed
  in, has nobody to send it to, or cannot connect (`MessageDroppedIff`).
- A hang-up takes the control socket away from a message in flight, exactly while the
  client is signed in and in a call (`InFlightSurvives`); `CutOffIff` lists everything that
  does, and later messages do not. Waiting messages can be left with nothing under way that would send them:
  `StrandedIff` says for every state and event exactly when, `RunStrandsIff` for whole runs, and
  `RefusedRunStrands` is a run that does. `pending_hangup_peer_id_` is never set, so the
  deferred hang-up branch of `OnMessageSent` is dead.
- The video source does not check the size of a picture, so a picture larger than a slot,
  full HD for one (`FullHdIsRefused`), can overwrite a good one in the mailbox and is then
  refused by the writer. The writer refuses none, over every run, if and only if each
  picture's strided size fits (`PicturesRefusedIff`).
- The frame length the decoded sink publishes is the size of the I420 planes if and only if
  both dimensions are even; otherwise it is too small (`DecodedIsShown`). The preview
  publishes twice the luma size, where even dimensions make it three halves
  (`PreviewIsShown`). Both keep 16 bits of each dimension.
- The video frame head stores the rotation in 8 bits, so 270 degrees becomes 14; the head
  describes its picture if and only if the rotation is another one and both dimensions fit
  16 bits (`HeadDescribesIff`).
- An entry of the peer list is read back as written if and only if the name is neither
  empty nor contains a comma (`EntryRoundTripsIff`).

## Model

| member | source | states |
|---|---|---|
| Registry.RosterIsExact | signal_server_26_11_3/registry.cc:88-98 | a list is the roster if and only if it is strictly ascending by id, has only true lines, and a line for every member |
| Registry.RegisterKeeps | signal_server_26_11_3/registry.cc:3-13 | registering keeps ids below the next id, names unique and exactly the members' names, and the pairing |
| Registry.CallKeeps | signal_server_26_11_3/registry.cc:15-35 | a call, accepted or refused, keeps the peer ids a symmetric, irreflexive partial matching with busy exactly when paired |
| Registry.HangupKeeps | signal_server_26_11_3/registry.cc:49-68 | hanging up with the id GetPeer gave keeps the whole registry invariant |
| Registry.HangupKeepsIff | signal_server_26_11_3/registry.cc:57-68 | an unconditional hang-up keeps it if and only if each argument is absent, idle or the other's partner |
| Registry.RemoveKeeps | signal_server_26_11_3/registry.cc:70-86 | removing a member frees its name, idles its partner and keeps the invariant |
| Registry.ClientRegistry.Register | signal_server_26_11_3/registry.cc:3-13 | the in-place operation has the effect and result the invariant lemmas are about |
| Registry.ClientRegistry.Call | signal_server_26_11_3/registry.cc:15-35 | outcome and new state for every order of failing checks |
| Registry.ClientRegistry.Hangup | signal_server_26_11_3/registry.cc:57-68 | both sides cleared, absent ids ignored |
| Registry.ClientRegistry.Remove | signal_server_26_11_3/registry.cc:70-86 | member and name erased, partner released and returned |
| Registry.ClientRegistry.Roster | signal_server_26_11_3/registry.cc:88-98 | the loop over the members yields the exact roster |
| Signaling.RunInv | signal_server_26_11_3/signaling_server.cc:47-191 | after every handler of every run the connection maps are mutually inverse on the registry's ids, registered handles are watched, names are unique, calls form a matching |
| CallSessions.AcceptsIffOk | signal_server_26_11_3/signaling_server.cc:106-113 | the stamped call reaches the target exactly when the registry accepts it |
| CallSessions.PairedIffInSession | signal_server_26_11_3/registry.cc:37-47 | the registry pairs two ids exactly while the run, read off messages only, has an accepted call between them and no later leave or drop of either |
| CallSessions.SessionsAreExclusive | signal_server_26_11_3/registry.cc:15-35 | sessions are symmetric, irreflexive, and nobody is in two |
| CallSessions.RelayedExactlyInSession | signal_server_26_11_3/signaling_server.cc:124-128 | an answer or candidate is sent, once, stamped, to the target's own connection exactly inside a session; otherwise nothing is sent |
| CallSessions.ForwardedOnlyInSession | signal_server_26_11_3/signaling_server.cc:124-128 | conversely every answer or candidate on the wire came from its stamped sender inside a session |
| CallSessions.EndingIsAnnounced | signal_server_26_11_3/signaling_server.cc:139-148 | the end of a session is announced once to each side (leave) or to the side that remains (drop), with the new roster, and the session is over |
| CallSessions.AnnouncedOnlyAtEnd | signal_server_26_11_3/signaling_server.cc:139-148 | conversely every leave or peer_gone on the wire tells of a session that ends at that moment, and names who ended it |
| Membership.KnownIffOnline | signal_server_26_11_3/signaling_server.cc:68-98 | over every run, the maps and the registry know a connection under an id and a name if and only if it was welcomed under them and has not closed since |
| Membership.PushedRosterIsTrue | signal_server_26_11_3/signaling_server.cc:169-174 | over every run, the last roster sent to anyone online is strictly ascending, and has a line if and only if someone is online under that id and name, busy exactly in a session |
| Membership.IdsAreConsecutive | signal_server_26_11_3/registry.cc:3-13 | the next id is one more than the number of welcomes sent so far |
| Membership.RegisterAnswered | signal_server_26_11_3/signaling_server.cc:76-99 | when a registration is ignored, refused because someone online bears the name, or granted with the next id and one true roster to everyone online |
| Membership.CallPutThroughIff | signal_server_26_11_3/signaling_server.cc:106-113 | a call of a to b is put through if and only if b is someone else who is online and neither is in a session of the run |
| Membership.CallAnswered | signal_server_26_11_3/signaling_server.cc:106-123 | what is sent on a call in each of the other cases: busy, offline or nothing; and the stamped call and the rosters when it is put through |
| Membership.TextAnswered | signal_server_26_11_3/signaling_server.cc:129-138 | a text reaches the connection of the one it is for, whole, with its sender's id, or comes back as offline |
| Membership.EndAnswered | signal_server_26_11_3/signaling_server.cc:139-191 | what is sent when someone online leaves or is lost, in a session and outside one |
| Membership.RestAnswered | signal_server_26_11_3/signaling_server.cc:100-154 | a roster request is answered with the true roster; malformed and unknown messages, and all but registrations on a connection that is not online, are met with silence |
| SessionCounts.SessionsConserved | signal_server_26_11_3/signaling_server.cc:106-191 | over every run, counting events: sessions opened = ended by a leave + ended by a drop + open pairs, busy members = 2 * open pairs; and the messages sent are one call per opened session, two leaves per leave, one peer_gone per drop |
| SessionCounts.OpenPairsAreSessions | signal_server_26_11_3/registry.cc:15-86 | the open pairs and busy members so counted are those of the sessions of the run |
| SignalingLog.PushedRosterIsCurrent | signal_server_26_11_3/signaling_server.cc:169-174 | after every handler the last roster sent to each registered connection is the current one |
| SignalingLog.IdsNeverReused | signal_server_26_11_3/registry.cc:3-13 | the ids welcomed over a run are strictly increasing |
| SignalingLog.EveryLookupFinds | signal_server_26_11_3/signaling_server.cc:162-167 | in every reachable state each SendTo finds a connection and its message is sent |
| Heartbeats.LastPongIsSilence | signal_server_26_11_3/signaling_server.cc:47-66 | the server's time for a connection is that of the event since which it has been silent, registered or not |
| Heartbeats.DroppedExactlyWhenSilent | signal_server_26_11_3/signaling_server.cc:198-210 | a heartbeat drops a connection if and only if it has been silent for longer than the timeout |
| Heartbeats.DroppedInTime | signal_server_26_11_3/signaling_server.cc:193-221 | with a monotone clock and heartbeats every interval, a silent connection is dropped after timeout and by timeout + interval |
| SignalingServers.SignalingServer.OnMessage | signal_server_26_11_3/signaling_server.cc:68-154 | the handler takes the object from the run so far to the run with this message, log included |
| SignalingServers.SignalingServer.DropConnection | signal_server_26_11_3/signaling_server.cc:176-191 | the same for a lost connection |
| SignalingServers.SignalingServer.OnHeartbeat | signal_server_26_11_3/signaling_server.cc:198-221 | the loop collects exactly the overdue connections and changes nothing |
| ShmRing.PutAppends | peerconnection/client_arm64/shm_audio_writer.cc:70-75 | a write appends exactly the head and first frame_len bytes to the queue the ring stands for, and w_idx stays r_idx + frame_count modulo the capacity |
| ShmRing.TakeRemoves | peerconnection/client_arm64/shm_audio_reader.cc:81-90 | a read removes the oldest frame and nothing else |
| ShmRing.SharedRing.WriteFrame | peerconnection/client_arm64/shm_audio_writer.cc:53-82 | in place: reject, wait or append, and when each happens |
| ShmRing.SharedRing.ReadFrame | peerconnection/client_arm64/shm_audio_reader.cc:59-97 | in place: wait, stop, deliver the oldest frame into the caller's buffer and no further, or discard |
| FramePipeline.SinkSeesOffer | peerconnection/client_arm64/shm_audio_capturer.cc:54-61 | the sink call repeats the source's call if and only if the format fits the header and a sample frame is not empty |
| FramePipeline.FormatKept | peerconnection/client_arm64/shm_audio_capturer.cc:54-61 | in any case time and bytes travel unchanged and the format modulo its widths, and the loop would divide by zero exactly when nothing is left of the channels or less than a byte of the sample width |
| FramePipeline.SinksHearOffers | peerconnection/client_arm64/shm_audio_capturer.cc:46-65 | over every run, each frame delivered makes the sinks' call the source's own if and only if the format fits |
| FramePipeline.RunInv | peerconnection/client_arm64/shm_audio_renderer.cc:33-74 | every interleaving keeps the ring well-formed, every frame genuine, every offer accounted for and no wakeup lost |
| FramePipeline.DeliveredInOrder | peerconnection/client_arm64/shm_audio_renderer.cc:33-74 | with or without the source's size check: delivered frames are an in-order, duplicate-free selection of those offered, unchanged; a missing one was too large and turned down (by the source if it checks, by the writer if not), or overwritten by a later one in the mailbox, or is still on its way |
| FramePipeline.RingNeverDrops | peerconnection/client_arm64/shm_audio_reader.cc:83-97 | the reader's discard branch never fires, nor does the writer's size check behind a checking source |
| FramePipeline.WriterRefusesIff | client_arm64_linux/shm_video_writer.cc:53-55 | behind a source that does not check, the writer refuses no frame, over every run with frames of a set, if and only if none of the set is too large |
| Progress.ThreadsDeliver | peerconnection/client_arm64/shm_audio_renderer.cc:60-74 | from any state of a run that is not stopped, without new offers and without spurious wakeups, the threads can do only so many steps in whatever order, and when none is left the mailbox and everything behind it has been delivered |
| Progress.SomeStepsDeliver | peerconnection/client_arm64/shm_audio_renderer.cc:60-74 | such steps exist |
| VideoPath.OfferIsPacking | client_arm64_linux/shm_video_renderer.cc:33-86 | what travels for a picture is the packed frame, all of it |
| VideoPath.PicturesArrive | client_arm64_linux/shm_video_renderer.cc:33-86 | over every run, what is delivered shows one of the pictures offered, its time and every sample of it, and they come in order |
| VideoPath.PicturesRefusedIff | client_arm64_linux/shm_video_writer.cc:53-55 | the writer refuses no picture, over every run with pictures of a set, if and only if each strided size fits a slot |
| VideoPath.FullHdIsRefused | client_arm64_linux/shm_video_writer.cc:53-55 | a full-HD picture is put into the mailbox and refused |
| FramePipeline.NobodyForgotten | peerconnection/client_arm64/shm_audio_writer.cc:61-79 | a sleeper with something to do has a signal pending or coming, and writer and reader are never both asleep unsignalled |
| FramePipeline.ReadReleasesWriter | peerconnection/client_arm64/shm_audio_reader.cc:86-89 | after a successful read a blocked writer, whatever the others do meanwhile, wakes to room and writes |
| Stopping.ReaderReads | peerconnection/client_arm64/shm_audio_reader.cc:59-97 | in every reachable state the capture thread's attempt is one pass of ReadFrame, and it delivers, waits or ends as the outcome says |
| Stopping.WriterWrites | peerconnection/client_arm64/shm_audio_writer.cc:53-82 | the IO thread's attempt is one pass of WriteFrame |
| Stopping.FlagsOfRun | peerconnection/client_arm64/shm_audio_capturer.cc:28-34 | over every run, the flags are set exactly by the destructors' calls, in their order |
| Stopping.StoppedReaderEnds | peerconnection/client_arm64/shm_audio_reader.cc:61-65 | once the capturer's destructor has told the thread, and whatever the others do: at most one wake-up and three steps of its own end it, with at most one more frame delivered |
| Stopping.StoppedIoEnds | peerconnection/client_arm64/shm_audio_renderer.cc:60-74 | once the renderer is stopped the IO thread takes nothing more from the mailbox, is never stuck, and ends after three moves of its own, but for two more each time it finds the ring full |
| Seqlock.RunInv | client_arm64_linux/rga_decoded_sink.cc:57-128 | after every writer step every counter is twice the frames published to its slot, plus one while it is being written, modulo 2^32, and untouched slots show their last frame |
| Seqlock.CountersOfRun | client_arm64_linux/rga_video_track_source.cc:254-309 | only slot w_idx can be odd, and only between begin and end; idle after p frames, w_idx = p mod 8 and seq[i] = 2*((p+7-i)/8) modulo 2^32 |
| Seqlock.AbortUndoes | client_arm64_linux/rga_decoded_sink.cc:105-112 | announcing and taking back leaves the ring as it was |
| Seqlock.AbortKeepsIff | client_arm64_linux/rga_decoded_sink.cc:105-112 | taking back keeps the writer's invariant if and only if the blit left the slot as last published |
| Seqlock.AbortSafeIff | client_arm64_linux/rga_decoded_sink.cc:105-112 | in every run: some reader that looks once the announcement is taken back, with equal even counters, copies a cell that is not in the frame last published, if and only if the blit changed the slot |
| Seqlock.AbortSpanIff | client_arm64_linux/rga_decoded_sink.cc:57-112 | in every run: some reader that looks before the announcement and after it was taken back, with equal even counters, copies a cell that was never published, if and only if after some of the writer's steps the cells were not those last published |
| Seqlock.SameCounterIff | client_arm64_linux/video_frame_shm_ctrl.h:28 | a second look agrees with an even first one if and only if the writer is away and a multiple of 2^31 frames came between |
| Seqlock.ReaderSeesOneFrame | client_arm64_linux/video_frame_shm_ctrl.h:28 | for every interleaving, a reader with equal even counters has copied cells of exactly one published frame, header and pixels |
| Seqlock.RgaSink.Decoded | client_arm64_linux/rga_decoded_sink.cc:49-129 | publishes exactly one frame with these pixels, or changes nothing; the published slot's own header words show time, dimensions and plane size, and when they do not |
| Seqlock.RgaSink.Preview | client_arm64_linux/rga_video_track_source.cc:254-309 | the same for the preview writer |
| Seqlock.DecodedIsShown | client_arm64_linux/rga_decoded_sink.cc:54-122 | word 0 is the time; words 2 and 3 are the dimensions if and only if both fit 16 bits; word 1 is at least the luma size, and the I420 size if and only if both dimensions are even |
| Seqlock.PreviewIsShown | client_arm64_linux/rga_video_track_source.cc:291-298 | no time, the same dimensions, and twice the luma size |
| Seqlock.PaintedAt | client_arm64_linux/rga_decoded_sink.cc:103-112 | each pixel word is what the blit wrote there last, or what it was |
| ConsumerTable.DmaBufServer.FindFree | client_arm64_linux/dma_buf_server.cc:137-148 | the search through the mask finds the first free slot, and finds none exactly when all four bits are set, which is exactly when all four descriptors are live |
| ConsumerTable.LiveSlots | client_arm64_linux/dma_buf_server.cc:107-116 | the poll entries are the live slots in ascending order, each once |
| ConsumerTable.DmaBufServer.PollRound | client_arm64_linux/dma_buf_server.cc:97-208 | after every round mask bit j is set exactly when slot j is live; which slots were filled, freed and left alone, which descriptors were closed, and every consumer's cursor |
| ConsumerTable.DmaBufServer.HandleEntries | client_arm64_linux/dma_buf_server.cc:126-206 | every entry still to be handled names its slot's descriptor, even after an accept in the same round |
| ConsumerTable.DmaBufServer.Admit | client_arm64_linux/dma_buf_server.cc:129-189 | a newcomer that completes the handshake is refused if and only if all bits of the mask are set, if and only if all four descriptors are live; otherwise it gets the first free slot; one that does not complete it is closed and nothing else changes |
| ConsumerTable.DescriptorsConserved | client_arm64_linux/dma_buf_server.cc:126-206 | of the descriptors in the table and the one accepted, each is in the table after the round or closed in it, once; PollRound keeps that over every run |
| LineFraming.SplitExists | client_x64_linux/pipe_transport_unix.cc:91-98 | every stream is its lines, each with a newline, followed by its newline-free tail |
| LineFraming.SplitUnique | client_x64_linux/pipe_transport_unix.cc:91-98 | and that is the only way to take it apart |
| LineFraming.ChunkingDoesNotMatter | client_x64_linux/pipe_transport_unix.cc:66-98 | however the stream is cut into reads, the lines and the kept tail are those of the whole stream |
| LineFraming.SendRoundTrips | client_x64_linux/pipe_transport_unix.cc:33-37 | framed messages come out as sent if and only if none is empty or holds a newline |
| LineFraming.ReconnectKeepsLinesIff | client_x64_linux/pipe_transport_unix.cc:67-91 | the condition under which a new client's lines are its own |
| LineFraming.Drain | client_x64_linux/pipe_transport_unix.cc:92-98 | the inner loop hands out all non-empty lines and keeps the tail |
| LineFraming.LineSplitter.OnReadable | client_x64_linux/pipe_transport_unix.cc:83-98 | after every read the lines handed out are those of the stream so far |
| TextScan.AtoiOfDecimal | webrtc_engine/peer_connection_client.cc:327-338 | a printed number is read back, whatever non-digit follows |
| TextScan.AtoiReads | webrtc_engine/peer_connection_client.cc:327-338 | any number behind blanks and a sign is read, up to the first character that is no digit |
| HttpFraming.CompleteFrom | webrtc_engine/peer_connection_client.cc:357-393 | a prefix is not taken for a whole response before its declared end, and is there |
| HttpFraming.WholeIff | webrtc_engine/peer_connection_client.cc:357-393 | a response is complete and no proper prefix is, if and only if it ends where its header block declares |
| HttpFraming.CuttingDoesNotMatter | webrtc_engine/peer_connection_client.cc:357-393 | every cutting, empty reads included, delivers it once and whole, if and only if that holds |
| HttpFraming.IndependentIff | webrtc_engine/peer_connection_client.cc:357-393 | all cuttings have the same outcome if and only if the response does not go beyond its declared end |
| HttpFraming.BytesConserved | webrtc_engine/peer_connection_client.cc:360-366 | what came out and what is kept is what was left and what was read, byte for byte |
| HttpFraming.LeftoverIff | webrtc_engine/peer_connection_client.cc:357-393 | a rightly framed response comes out by itself under every cutting if and only if the buffer was empty |
| HttpFraming.FramedIff | webrtc_engine/peer_connection_client.cc:370-378 | which body length each declared number frames, blank, negative and wrapping ones included |
| HttpResponses.FieldFound | webrtc_engine/peer_connection_client.cc:327-338 | in any response of clean header lines, the value read is that of the first line with the field, and the search stays in the headers |
| HttpResponses.DeclaredIsWhole | webrtc_engine/peer_connection_client.cc:370-378 | a response whose length field gives its body's length ends where its header block declares |
| HttpResponses.DeclaredIsDelivered | webrtc_engine/peer_connection_client.cc:357-393 | every such response is completed once, whole, however it is cut into reads |
| HttpResponses.MinimalFramedIff | webrtc_engine/peer_connection_client.cc:357-393 | for a status line and any length text: every cutting delivers the response whole if and only if the body has the length meant |
| HttpResponses.LengthsThatFail | webrtc_engine/peer_connection_client.cc:370-378 | a blank, a negative and a far negative length that some cutting defeats |
| SignIn.EntryRoundTripsIff | webrtc_engine/peer_connection_client.cc:512-532 | the condition under which a peer entry is read back as the server prints it |
| SignIn.EntryRead | webrtc_engine/peer_connection_client.cc:512-532 | an entry with any flag number is connected exactly when it is not 0, and without a flag not |
| SignIn.EntryTakenIff | webrtc_engine/peer_connection_client.cc:512-532 | an entry is taken if and only if it has a comma, and not in front; its name is what stands before the first |
| SignIn.PeerListRoundTrips | webrtc_engine/peer_connection_client.cc:413-428 | the printed peer list is read back as the directory it came from, without the client itself |
| SignIn.SessionIndependentOfCutting | webrtc_engine/peer_connection_client.cc:395-467 | whatever state client and engine are in and whatever is left in the buffer: leftover and reads are taken for one response, and if that ends where it declares, the reads do what it does, once, however they are cut |
| SignIn.SignInRoundTrips | webrtc_engine/peer_connection_client.cc:395-428 | a client signing in that reads a 200 response with its id, a right length and the printed list, cut in any way, with or without a close, ends up connected under that id with exactly the printed directory without itself |
| SignIn.ControlReader.OnRead | webrtc_engine/peer_connection_client.cc:357-467 | buffer, phase, id, peers, control socket and queue after every read event, with the close a response asks for, error responses, and the sign-in and both sign-out phases |
| SignIn.ControlReader.ReadPeers | webrtc_engine/peer_connection_client.cc:413-428 | the body loop builds the peer map line by line |
| ResponseEffects.ClosesIff | webrtc_engine/peer_connection_client.cc:340-355 | with a Connection line, the client takes the response for one that asks for the close if and only if the first such line is exactly "Connection: close" |
| ResponseEffects.NoCloseWithout | webrtc_engine/peer_connection_client.cc:340-355 | without one it never does |
| ResponseEffects.ResponseSendsNext | webrtc_engine/peer_connection_client.cc:372-387 | a 200 response during a call, cut in any way: with the close the oldest waiting message is in flight, without it nothing at all has changed |
| ResponseEffects.ErrorDisconnects | webrtc_engine/peer_connection_client.cc:542-553 | a response with another status, in any state and cut in any way: the client is closed, the call over and the queue empty; what it put on the wire before |
| ResponseEffects.NoIdGiven | webrtc_engine/peer_connection_client.cc:400-428 | a sign-in response without an id: connected, no id, and no request but a new sign-in can be started |
| ResponseEffects.LengthTakenForStatus | webrtc_engine/peer_connection_client.cc:534-540 | without a blank in the status line the length in the next line is read as the status |
| ResponseEffects.ZeroLengthListsNobody | webrtc_engine/peer_connection_client.cc:410-428 | with a length of 0 nobody is listed, whatever follows the headers |
| ResponseEffects.SignOutRoundTrips | webrtc_engine/peer_connection_client.cc:429-456 | the answer to a sign-out leaves the client connected under its id with exactly the printed directory in place of the old one |
| ResponseEffects.WaitingSignOutIff | webrtc_engine/peer_connection_client.cc:247-271 | a sign-out asked for during a message goes on the wire with its response if and only if that asks for the close, and what the response is then taken for |
| OutgoingQueue.NothingReordered | webrtc_engine/webrtc_engine.cc:600-615 | over every run, between clears, messages handed over followed by those waiting are those enqueued, in order |
| OutgoingQueue.InFlightSurvives | webrtc_engine/peer_connection_client.cc:174-197 | in any state a later message leaves a request in flight alone, and a hang-up disturbs it exactly in a signed-in call |
| OutgoingQueue.LaterMessagesWait | webrtc_engine/webrtc_engine.cc:767-783 | however many messages are sent meanwhile, nothing else goes on the wire until the request's own close or the socket is given up |
| OutgoingQueue.StrandedIff | webrtc_engine/webrtc_engine.cc:600-615 | in every state, a step leaves waiting messages without a close to come if and only if it is a refusal, the peer's leaving, a connect that fails, or a close whose next message cannot be sent while more wait |
| OutgoingQueue.RunStrandsIff | webrtc_engine/webrtc_engine.cc:600-615 | a run strands messages if and only if one of these events happens in it |
| OutgoingQueue.RefusedRunStrands | webrtc_engine/peer_connection_client.cc:585-598 | a run from the start in which a refused connection strands the second message |
| OutgoingQueue.CallDeliversInOrder | webrtc_engine/webrtc_engine.cc:767-783 | in a call whose connects succeed no message is ever stranded, and the messages connections were started for plus the queue are those sent, in order, all for this peer |
| OutgoingQueue.CutOffIff | webrtc_engine/peer_connection_client.cc:174-213 | exactly which step cuts off a message in flight, in every state, and that a close of its own is what finishes it |
| OutgoingQueue.CallSettles | webrtc_engine/webrtc_engine.cc:262-271 | among the events of a call whose connects succeed and are not refused, a hang-up cuts a message in flight off, every time, and the others do not |
| OutgoingQueue.CallSettlesInOrder | webrtc_engine/webrtc_engine.cc:767-783 | over any such run: messages that came to their own close or were cut off, then the one in flight, then those waiting, are those sent, in order; without a hang-up none is cut off |
| OutgoingQueue.ClosesDrain | webrtc_engine/webrtc_engine.cc:600-615 | n closes of the control socket send the n oldest messages |
| ClientLife.TalkOfRun | webrtc_engine/webrtc_engine.cc:236-252 | over every run, the engine is in a call exactly with the first peer called since the last end |
| ClientLife.MessagesFollowCalls | webrtc_engine/webrtc_engine.cc:767-783 | over every run, a message goes on the wire only for that peer (or one whose first message came), under the client's own id |
| ClientLife.CallReachesPeer | webrtc_engine/webrtc_engine.cc:236-252 | from any signed-in state outside a call with nothing stranded: after calling p, all messages put on the wire are for p, and their bodies followed by the queue are those that waited and those sent |
| ClientLife.SecondCallIgnored | webrtc_engine/webrtc_engine.cc:240-243 | calling somebody else during the call changes none of that |
| ClientLife.SignInStartedIff | webrtc_engine/peer_connection_client.cc:157-172 | in every state, exactly which step starts a sign-in |
| ClientLife.HangupStartedIff | webrtc_engine/peer_connection_client.cc:199-212 | exactly which step starts a hang-up, and under which id |
| ClientLife.MessageStartedIff | webrtc_engine/peer_connection_client.cc:174-197 | exactly which step starts which message, for whom and under which id |
| ClientLife.SignOutStartedIff | webrtc_engine/peer_connection_client.cc:247-271 | exactly which step starts a sign-out, and under which id |
| ClientLife.SigningOutIff | webrtc_engine/peer_connection_client.cc:247-271 | exactly which step takes the client over to signing out: those that start a sign-out, and those that would before it has an id |
| ClientLife.MessageDroppedIff | webrtc_engine/webrtc_engine.cc:600-615 | exactly when a message is taken off the queue and put on no wire |
| ClientLife.IdKept | webrtc_engine/peer_connection_client.cc:400-404 | the id is the one the first answer gave, until the client is closed |
| ClientLife.FailedConnectCloses | webrtc_engine/peer_connection_client.cc:285-293 | wherever a step starts a connection, a failing connect closes the client instead |
| ClientLife.NothingComesBack | webrtc_engine/webrtc_engine.cc:711-728 | once the queue is cleared, no message of the old call goes on the wire whatever follows, until a new one is sent |
| ClientLife.SigningOutIsSilent | webrtc_engine/peer_connection_client.cc:247-271 | signing off with a free socket asks for the client's own id to be signed out, nothing else is started until the answer, and the answer leaves it connected under the same id |
| OutgoingQueue.PeerConnectionClient.SendToPeer | webrtc_engine/peer_connection_client.cc:174-197 | when it refuses, connects, or loses the connection, and the new client state |
| OutgoingQueue.WebRTCEngine.SendMessage | webrtc_engine/webrtc_engine.cc:767-783 | the object takes the step the theorems are about |
| OutgoingQueue.WebRTCEngine.OnControlClosed | webrtc_engine/webrtc_engine.cc:600-618 | the same for the close of the control socket |
| OutgoingQueue.WebRTCEngine.DisconnectFromServerImpl | webrtc_engine/webrtc_engine.cc:223-226 | signing out, when signed in, as the step the theorems cover |
| OutgoingQueue.WebRTCEngine.DeletePeerConnection | webrtc_engine/webrtc_engine.cc:711-728 | the clearing loop empties the queue and ends the call |
| PlanePacking.SamplesAt | client_arm64_linux/shm_video_renderer.cc:58-79 | every Y, U and V sample is at its packed row-major offset, whatever follows |
| PlanePacking.StridesMakeRoom | client_arm64_linux/shm_video_renderer.cc:41-56 | strides no shorter than the rows leave room for all samples in total_size |
| PlanePacking.PackedAt | client_arm64_linux/shm_video_renderer.cc:59-65 | one plane: sample (r, c) moves from r*stride + c to r*width + c |
| PlanePacking.CopyRows | client_arm64_linux/shm_video_renderer.cc:61-65 | one copy loop overwrites exactly the packed plane's range |
| PlanePacking.HeadDescribesIff | client_arm64_linux/shm_video_renderer.cc:49-56 | the head gives size and rotation back if and only if both dimensions fit 16 bits and the rotation is not 270 degrees |
| PlanePacking.PackingShows | client_arm64_linux/shm_video_renderer.cc:33-86 | what the renderer leaves has the picture's time, its size and rotation where the head can hold them, its own length, and every luma sample with its chroma samples |
| PlanePacking.TotalIsMemory | client_arm64_linux/shm_video_renderer.cc:41-47 | with planes that are exactly their rows, gaps included, the frame is as long as the three together |
| PlanePacking.ShmVideoRenderer.OnFrame | client_arm64_linux/shm_video_renderer.cc:33-86 | the frame left in the mailbox: the whole head, packed planes, then an untouched zero tail; a failed conversion leaves the mailbox alone |
| LogRotation.ChainIsSuffix | signal_server_26_11_3/logger.cc:58-84 | read oldest first, the files are an unbroken record-aligned suffix of everything logged |
| LogRotation.BytesAreSuffix | signal_server_26_11_3/logger.cc:58-84 | the same in bytes: what was found and logged is some whole records followed by the files' bytes |
| LogRotation.FilesBounded | signal_server_26_11_3/logger.cc:71-84 | from no files: at most max(1, max_files) history files, each file within max_size or one longer record, none rotated before it was full |
| LogRotation.LimitKeptIff | signal_server_26_11_3/logger.cc:58-69 | at most max_files history files over every run, if and only if max_files is at least 1 |
| LogRotation.NothingLostWithRoom | signal_server_26_11_3/logger.cc:58-69 | while the history is not full, the files hold everything logged |
| LogRotation.FoundFileBreaksBound | signal_server_26_11_3/logger.cc:51-56 | for all files found at start: the limits hold over every run if and only if the base file was empty and the history files found are within the limits |
| LogRotation.RotatedHolds | signal_server_26_11_3/logger.cc:58-69 | the renames realise one shift of the chain |
| LogRotation.FileLogger.Rotate | signal_server_26_11_3/logger.cc:58-69 | the descending renames move every kept file up by one, for every max_files |
| LogRotation.FileLogger.Log | signal_server_26_11_3/logger.cc:71-84 | the files on disk are the chain of the records so far and nothing else |
| PcmRing.HeardInOrder | peerconnection/audio_test/main.cc:45-71 | over every history of writes and reads, which the object records and its contents follow: what was heard plus what waits is what was taken, at most 7 slots |
| PcmRing.WriteAppends | peerconnection/audio_test/main.cc:45-57 | the two-case formulas and index arithmetic append one slot |
| PcmRing.ReadRemoves | peerconnection/audio_test/main.cc:60-71 | and remove the oldest |
| PcmRing.PcmRingBuffer.Write | peerconnection/audio_test/main.cc:45-57 | keeps the ring equal to the queue of its history; refuses exactly when 7 slots wait; queues a full slot as it is and a short one with the slot's stale tail |
| PcmRing.PcmRingBuffer.Read | peerconnection/audio_test/main.cc:60-71 | silence exactly when nothing waits, else the oldest slot |
| PcmRing.PcmRingBuffer.Available | peerconnection/audio_test/main.cc:73-77 | the number of waiting slots |

## Left out

- Sockets, poll and epoll, SysV shared memory, websocketpp and jsoncpp: events, byte strings and message values stand for them, and sends on a known connection are taken to succeed.
- The fields of a relayed message other than type, to and from are one value that is passed on.
- Integer overflow of `next_id_`, of strides times rows in `OnFrame`, of `byte_count` in `OnData` and of the argument of `atoi` (`FramedIff` asks that the number fit a C int): numbers are unbounded there.
- `Init`, `SetOutput` and other set-up failures, and the error returns of the pthread waits.
- Critical sections are single steps, and memory is sequentially consistent; the two `__sync_synchronize` calls are not modelled separately.
- The program that reads the seqlock is not part of the repository; its rule is taken from client_arm64_linux/video_frame_shm_ctrl.h:28.
- A failed blit is taken to leave the slot's bytes unchanged, and fewer than 2^31 frames to be published to one slot during one copy (`AbortSafeIff`, `AbortSpanIff` and `SameCounterIff` say what happens to readers otherwise).
- `ShmAudioCtrlBlock` and its capacity are not part of this model: the capacity is any number from 1 on.
- Adding and removing sinks in the capturer, and the capture half of `OnRawFrame`.
- The consumer mask is a number whose binary digits are read and set; descriptors given by accept are taken to be fresh.
- The chunk limits of the read buffers (4095 and 65535 bytes), which only cut streams further.
- In `OnRead` the reconnecting of the hanging GET and the notifications to the user interface; zero bytes inside a status line.
- In the outgoing queue: name resolution, the hanging GET, the ECONNREFUSED retry timer (a `Retry` event at any time stands for it), and a call by the user for which no peer connection can be created.
- LogRotation.FileLogger.constructor: asks that no more than max(1, max_files) history files be found, because files numbered beyond that stay on disk untouched and are no part of the chain; failures to open, rename or remove files are not modelled.
- OutgoingQueue.CallDeliversInOrder: assumes that connects succeed, because a failed connect signs the client off and drops the message; `StrandedIff` covers failures.
- WebRTC, MPP, RGA and DMA buffers, device enumeration, statistics, user interfaces, command parsing, the JSON escaping and NV12 interleaving loops, and `BlockingQueue`.
