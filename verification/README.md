# Verified model of the reconstruction kernel and its COLMAP adapter

This project models the parts of the kernel whose behaviour the code itself decides, and proves
what they promise for every input, every run and every reachable state.

| part | files |
|---|---|
| SE(3) algebra and the frame graph | `Geometry`, `FrameGraph`, `FrameGraphLaws` |
| COLMAP binary model: writer, reader, pose conversion | `LittleEndian`, `Binary64`, `PoseConversion`, `ColmapFormat`, `ColmapModel`, `ColmapLayout`, `ColmapCameras`, `ColmapRoundTrip`, `ColmapRecordOrder`, `ColmapReader`, `ColmapValidation`, `ColmapWriter`, `ColmapPartialModel` |
| worker protocol: threads, frames on a pipe, one task | `WorkerProtocol`, `WorkerFraming`, `WorkerTask` |
| content-addressed artifact store | `ArtifactStore`, `ArtifactRuns` |
| reprojection metrics | `Folds`, `Reprojection`, `ReprojectionLaws`, `ReprojectionMeaning` |
| two-ray triangulation and re-triangulation | `Triangulation`, `Retriangulation`, `RetriangulationLaws`, `RetriangulationLineage`, `RetriangulationCases` |
| lens inversion | `CameraModel`, `LensContraction`, `PixelRoundTrip` |
| cheirality vote | `Cheirality`, `CheiralityLaws`, `TwistedPair` |
| descriptor matching | `Matching`, `MatchingLaws` |

`Wrappers` holds Option and Result, `Collections` facts about sorted and permuted sequences.

## How the pieces are modelled

- A loop of the source is a method with a loop, proved equal to a specification function or to
  a property stated outright; an object the source updates in place is a class. The laws are
  lemmas about the specifications.
- Geometry is over the reals. In the binary codec a double is its 64-bit pattern, with the
  value of section 3.4 of IEEE 754; every single operation rounds, through a parameter of which
  nothing is assumed.
- The root mean square error, the stability distance and the angle between rays are compared in
  squares; where a square root is handed on (`PixelRoundTrip`, `Matching`) it is a parameter.
- SHA-256 is a function parameter; a lemma that needs it says that no other bytes have the
  digest in question. The index database is a map from id to row that keeps content hashes
  unique, as the database schema does.
- The worker is a state machine over the atomic steps of its reader, task and heartbeat threads.
  Sending one frame is atomic in it; `WorkerFraming.UnsynchronisedSendsGarble` shows what the
  missing lock allows otherwise. Pipes may split every read and write in any way.
- A task of the worker runs in a given world: its inputs, how often the runner of each subprocess
  polls the cancel token and how the subprocess ends, the output found, and after how many polls
  the token is set. Which sends fail is left open.
- Clocks, generated ids and the lens and view functions of the aggregate computations are
  parameters.

## Where the code and its documentation differ

The model follows the code; each difference is a lemma.

- The writer's header promises to fail before any file is touched. An infinite focal length or
  keypoint, or an overflow in the pose conversion, is refused only midway:
  `ColmapPartialModel.InfiniteFocalLength`, with the exact condition in
  `ColmapPartialModel.FailsMidway`. What is left behind never parses (`PartialModelRejected`).
- The pose formulas undo each other exactly on unit quaternions and on translations along the
  rotation axis, and on no other pose (`PoseConversion.PoseRoundTrip`, with a pose that changes in
  `PoseConversion.UnnormalisedPoseChanges`).
- The written images file is to name the point each keypoint observes, or -1. A point with id
  2^64 - 1 is written with the bits of -1, and only that one
  (`ColmapWriter.WrittenAsUnobserved`).
- The worker's header says a truncated frame is a protocol error. The code reports end of input
  (`WorkerFraming.CutStreamDecodes`).
- A cancel frame handled before the task thread registers its token is lost, even for a host
  that waits for the end of each task (`WorkerProtocol.CancelLost`).
- A cancel request that reaches the token after the last poll has no effect: the task completes
  (`WorkerTask.LateCancel`, with the exact condition in `WorkerTask.CancelledExactly`).
- Re-triangulation says its fresh ids never reuse source ids. For given distinct source ids every
  output has distinct ids exactly when none of them lies in the range the fresh ids can reach
  (`RetriangulationCases.DistinctOutputsExactly`); `RetriangulationCases.TwoPointsClash` is the
  smallest input with a repeated id.
- A point behind a camera gets a huge residual so that it is rejected. It is emitted exactly when
  at least half of the measured points are behind a camera
  (`RetriangulationLaws.BehindEmittedByHalf`), as in `RetriangulationCases.PointBehindEmitted`.
- With a repeated source id a point is measured on another point's track, passes unmeasured and
  loses its observations (`RetriangulationCases.RepeatedIdUnmeasured`). Every tested candidate is
  measured, for all inputs with given source ids, exactly when these are distinct
  (`RetriangulationCases.AllMeasuredExactly`). The inputs of these three items are built on one
  concrete scene of three cameras (`RetriangulationCases.SceneIsGood`).
- A second instance over a stored payload is promised to leave the first one as it is. The index
  keeps one row per hash, so the first instance loses its row and only its manifest stays
  (`ArtifactStores.InstanceReplacesRow`).
- Putting bytes again after a failed integrity check does not make them readable
  (`ArtifactStores.PutDoesNotHeal`, with a run in `ArtifactRuns.PutAgainInVain`).
- The lens inversion is said to converge to its tolerance. There is an accepted lens and a point
  for which it never does (`PixelRoundTrip.NeverConverges`).

## Model

| member | source | states |
|---|---|---|
| Geometry.RotateIsSandwich | core/geometry/quaternion.h:42-44 | for unit quaternions the rotation formula is q v q⁻¹ |
| Geometry.RotateIsMatrix | core/geometry/quaternion.h:42-44 | the rotation formula multiplies by the usual rotation matrix of the quaternion, entry by entry |
| Geometry.ComposeActs | core/geometry/se3.h:61-69 | (a * b)(p) = a(b(p)) for rigid transforms |
| Geometry.ComposeAssoc | core/geometry/se3.h:65-69 | composition of rigid transforms is associative |
| Geometry.InverseCancels | core/geometry/se3.h:55-59 | the inverse of a rigid transform cancels on both sides and is rigid |
| Geometry.InverseCompose | core/geometry/se3.h:55-69 | (a * b)⁻¹ = b⁻¹ * a⁻¹ |
| FrameGraphs.FrameGraph.AddFrame | core/coordinates/frame_graph.cpp:9-23 | rejects exactly a present id or a missing parent and then changes nothing; keeps the insertion order topological and duplicate-free and the edges rigid |
| FrameGraphs.FrameGraph.InsertUnchecked | core/coordinates/frame_graph.cpp:30-33 | keeps the old frame of a present id but appends the id to the order all the same |
| FrameGraphs.FrameGraph.Root | core/coordinates/frame_graph.cpp:39-59 | the one parentless frame, or which error says there is none or several |
| FrameGraphs.FrameGraph.ClimbTo | core/coordinates/frame_graph.cpp:79-96 | reaches the target exactly when the parent chain does, with the edges of the shortest walk; reports a cycle exactly on a chain that repeats before it |
| FrameGraphs.FrameGraph.Transform | core/coordinates/frame_graph.cpp:61-139 | on every frame map, also a damaged one: the product of the edges of the first walk up, the inverse of the walk down, or the error |
| FrameGraphLaws.ParentToChild | core/coordinates/frame_graph.cpp:93-100 | in every frame map Transform(parent, child) is the stored parent_from_child edge itself, and Transform(child, parent) its inverse unless the parent climbs to the child or in a circle |
| FrameGraphLaws.TransformCarries | core/coordinates/frame_graph.cpp:61-139 | in a graph built by AddFrame Transform(ancestor, frame) takes the coordinates of a point from frame to ancestor, edge by edge along the chain, and Transform(frame, ancestor) takes them back |
| FrameGraphs.FrameGraph.ValidateAcyclic | core/coordinates/frame_graph.cpp:141-183 | terminates on every frame map, greys each frame at most once, and is true exactly when every parent chain reaches a parentless frame through existing frames |
| FrameGraphs.Validate | core/coordinates/frame_graph_validator.cpp:5-22 | accepts exactly the grounded graphs with one root; says cycle exactly for an ungrounded graph, not found exactly for an empty one, several roots exactly for a grounded one with several |
| FrameGraphs.CompositionLaw | core/coordinates/frame_graph.cpp:61-139 | Transform(a,c) = Transform(a,b) * Transform(b,c) whenever the three exist, in any order on the chain, in a graph built by AddFrame |
| FrameGraphs.InverseLaw | core/coordinates/frame_graph.cpp:61-139 | Transform(b,a) exists with Transform(a,b) and is its inverse on both sides |
| FrameGraphs.BuiltGraphAcyclic | core/coordinates/frame_graph.cpp:9-23 | a graph built by AddFrame is grounded and Transform never reports a cycle in it |
| FrameGraphs.AcceptedGraphResolves | core/coordinates/frame_graph_validator.cpp:5-22 | in an accepted graph every frame resolves against the one root both ways, with inverse transforms |
| LittleEndian.NumberOfBytes | adapters/colmap/colmap_model_writer.cpp:47-55 | reading the low k bytes back gives the number, when it fits |
| LittleEndian.BytesOfNumber | adapters/colmap/colmap_converter.cpp:80-117 | every byte string is the bytes of the number it reads as |
| PoseConversion.PoseRoundTrip | adapters/colmap/colmap_converter.cpp:438-484 | converting a pose there and back returns it exactly when the quaternion is a unit or the translation lies along its axis |
| PoseConversion.ConvertInverts | adapters/colmap/colmap_model_writer.cpp:97-111 | for a unit rotation one conversion gives exactly the inverse rigid transform |
| PoseConversion.ConvertUndoes | adapters/colmap/colmap_converter.cpp:464-484 | it takes every point back where the pose took it from, and its translation is the point the pose takes to the origin |
| PoseConversion.UnnormalisedPoseChanges | adapters/colmap/colmap_converter.cpp:438-484 | a pose with a quaternion of length two that comes back changed |
| Binary64.LosslessValue | adapters/colmap/colmap_model_writer.cpp:83-93 | an expression none of whose operations loses anything has its exact value, rounded once at its root |
| Binary64.NonFiniteSpreads | adapters/colmap/colmap_model_writer.cpp:83-93 | an infinity or NaN among the operands makes the result one |
| Binary64.RotateMeans | adapters/colmap/colmap_converter.cpp:447-463 | in exact arithmetic the written expressions, operation by operation, are the rotation formula |
| Binary64.KnownPatterns | adapters/colmap/colmap_converter.cpp:111-116 | the value function gives the patterns of 1, 1.5 and -2 their values |
| Binary64.ConvertPoseUndoes | adapters/colmap/colmap_model_writer.cpp:97-111 | over doubles, without rounding loss: the converted pose stands for the inverse map |
| Binary64.DoublePoseRoundTrip | adapters/colmap/colmap_model_writer.cpp:78-111 | the bits of such a pose survive writing and reading when no single operation of the two conversions loses anything to rounding |
| Binary64.NonFinitePoseStays | adapters/colmap/colmap_model_writer.cpp:97-111 | a pose with an infinity or NaN is never written as finite numbers only |
| ColmapFormat.ParseFileRecords | adapters/colmap/colmap_converter.cpp:194-273 | a count and that many records, and any bytes after them, parse to the records |
| ColmapLayout.CameraLayout | adapters/colmap/colmap_model_writer.cpp:298-312 | byte offsets of a written camera: id, model, width, height, parameters, least significant byte first |
| ColmapLayout.ImageLayout | adapters/colmap/colmap_model_writer.cpp:327-361 | byte offsets of a written image: id, quaternion with its real part first, translation, camera, name after its length, and 24 bytes a keypoint with the point it observes |
| ColmapLayout.PointLayout | adapters/colmap/colmap_model_writer.cpp:376-397 | byte offsets of a written point: id, position, colour, error, track after its length |
| ColmapLayout.WrittenPoseInverts | adapters/colmap/colmap_model_writer.cpp:97-111 | the pose that stands at those offsets takes every point back where the image's own pose took it from |
| ColmapLayout.ReadPoseInverts | adapters/colmap/colmap_converter.cpp:464-484 | the pose of a converted image is the inverse map of the one in the record |
| ColmapCameras.ParameterMeaning | adapters/colmap/colmap_converter.cpp:161-191 | for each of the eleven models, single-focal ones included: how many parameters a parsed camera has, which are fx, fy, cx, cy, and that the rest are its coefficients, except for two models whose coefficients are dropped |
| ColmapCameras.ModelNames | adapters/colmap/colmap_converter.cpp:368-388 | the distortion model agrees with the intrinsic model; none exactly for the two pinhole models, which have no coefficients |
| ColmapRoundTrip.CameraIsRecord | adapters/colmap/colmap_model_writer.cpp:298-312 | the bytes of an accepted camera are one record: whatever follows them, they parse to it and nothing more is consumed |
| ColmapRoundTrip.ImageIsRecord | adapters/colmap/colmap_model_writer.cpp:327-361 | likewise for an image with its name and all its keypoints |
| ColmapRoundTrip.PointIsRecord | adapters/colmap/colmap_model_writer.cpp:376-397 | likewise for a point with its track |
| ColmapRoundTrip.RoundTrip | adapters/colmap/colmap_converter.cpp:289-303 | the three written files always parse; cameras, names, points, errors and tracks come back, sorted by id, and the whole reconstruction exactly when every pose survives its conversion |
| ColmapRoundTrip.RigidRoundTrip | adapters/colmap/colmap_model_writer.h:13-18 | with unit rotations and no rounding loss the whole reconstruction comes back bit for bit |
| ColmapRecordOrder.ParsersAreLocal | adapters/colmap/colmap_converter.cpp:161-259 | whatever a record parser accepts begins with a nonempty chunk that is one record: it parses to the same value whatever follows it |
| ColmapRecordOrder.FileDecomposes | adapters/colmap/colmap_converter.cpp:194-273 | every file that parses is a count, that many records, and ignored bytes: nothing is read out of bounds, no record is partial |
| ColmapRecordOrder.RecordOrderIrrelevant | adapters/colmap/colmap_converter.cpp:289-303 | permuting the records of a file with distinct ids does not change the parsed list |
| ColmapReader.BinaryReader.Text | adapters/colmap/colmap_converter.cpp:118-127 | the cursor reads a length and that many bytes, or refuses |
| ColmapReader.BinaryReader.Skip | adapters/colmap/colmap_converter.cpp:128-143 | skips exactly the bytes asked for, and refuses exactly when fewer are left |
| ColmapReader.ParseCameras | adapters/colmap/colmap_converter.cpp:194-206 | the loop over the cursor is the record grammar, for every byte string |
| ColmapReader.ParseImages | adapters/colmap/colmap_converter.cpp:226-238 | likewise for images |
| ColmapReader.ParsePoints | adapters/colmap/colmap_converter.cpp:261-273 | likewise for points |
| ColmapReader.ParseSparseModel | adapters/colmap/colmap_converter.cpp:289-303 | all three files or nothing, each list sorted by id |
| ColmapReader.SparseModelToReconstruction | adapters/colmap/colmap_converter.cpp:494-586 | converts record by record: ids, sizes, names, intrinsics, positions, colours, errors and tracks taken over, frame ids looked up by name, poses and distortion converted |
| ColmapValidation.HasDuplicate | adapters/colmap/colmap_model_writer.cpp:177-208 | sorting and comparing neighbours finds a repeated id exactly when there is one |
| ColmapValidation.CheckNames | adapters/colmap/colmap_model_writer.cpp:209-222 | passes only nonempty pairwise different names, and each rejection is true |
| ColmapValidation.CheckCameras | adapters/colmap/colmap_model_writer.cpp:224-233 | passes only representable cameras, with their rows, and each rejection is true |
| ColmapValidation.CheckKeypoints | adapters/colmap/colmap_model_writer.cpp:235-261 | passes only images with nonempty NaN-free keypoints, and each rejection is true |
| ColmapValidation.CheckTracks | adapters/colmap/colmap_model_writer.cpp:262-285 | passes only in-range, nowhere repeated track elements, with the index from observation to point |
| ColmapValidation.Validate | adapters/colmap/colmap_model_writer.cpp:166-285 | the checks pass exactly on the acceptable inputs, and each rejection names a fault that is there |
| ColmapValidation.CauseRefutes | adapters/colmap/colmap_model_writer.cpp:166-285 | an input with any named fault is not acceptable |
| ColmapWriter.SortCommutes | adapters/colmap/colmap_model_writer.cpp:293-296 | sorting the ids is reading the ids off the sorted records |
| ColmapWriter.Lookup | adapters/colmap/colmap_model_writer.cpp:298-305 | looking the k-th smallest id up finds the k-th record in order of id |
| ColmapWriter.WriteCameras | adapters/colmap/colmap_model_writer.cpp:287-314 | asks for exactly the fields of the cameras sorted by id |
| ColmapWriter.WriteImages | adapters/colmap/colmap_model_writer.cpp:316-363 | asks for exactly the fields of the images sorted by id, with the points their keypoints observe |
| ColmapWriter.WritePoints | adapters/colmap/colmap_model_writer.cpp:365-399 | asks for exactly the fields of the points sorted by id |
| ColmapWriter.IndexObserves | adapters/colmap/colmap_model_writer.cpp:350-360 | the index names, for every keypoint, the point whose track holds it, or -1 |
| ColmapWriter.KeypointNamesItsPoint | adapters/colmap/colmap_model_writer.cpp:350-360 | every track element is named by its keypoint in the image file |
| ColmapWriter.WrittenAsUnobserved | adapters/colmap/colmap_model_writer.cpp:350-360 | for disjoint tracks the number written for a keypoint has the bits of -1 exactly when no track holds it or that of the point with id 2^64 - 1 does |
| ColmapWriter.WriteFiles | adapters/colmap/colmap_model_writer.cpp:287-400 | succeeds exactly when every double is finite; otherwise the files hold the bytes up to the first refused double |
| ColmapWriter.WriteColmapModel | adapters/colmap/colmap_model_writer.cpp:166-400 | succeeds exactly on acceptable finite input and then leaves the canonical files; a rejected input leaves the directory alone; otherwise it leaves a cut-off model |
| ColmapPartialModel.FailsMidway | adapters/colmap/colmap_model_writer.cpp:56-60 | an accepted input fails while being written exactly when a camera parameter, keypoint, converted pose, point or error is not finite |
| ColmapPartialModel.InfiniteFocalLength | adapters/colmap/colmap_model_writer.cpp:56-60 | an input that passes all checks and leaves a cut-off cameras file |
| ColmapPartialModel.TruncationRejected | adapters/colmap/colmap_converter.cpp:136-143 | no proper prefix of a count and that many records parses |
| ColmapPartialModel.PartialModelRejected | adapters/colmap/colmap_converter.cpp:289-303 | what a failed write leaves never parses, whatever older files lie beside it |
| WorkerProtocol.SharedState.StoreRequest | adapters/colmap/colmap_worker_main.cpp:94-97 | a request replaces what is in the slot |
| WorkerProtocol.SharedState.CancelTask | adapters/colmap/colmap_worker_main.cpp:98-104 | cancels the registered token exactly when it belongs to the named task |
| WorkerProtocol.SharedState.TakeRequest | adapters/colmap/colmap_worker_main.cpp:157-168 | takes and empties the slot |
| WorkerProtocol.SharedState.Register | adapters/colmap/colmap_worker_main.cpp:173-178 | the new token is the active one, under its task id |
| WorkerProtocol.SharedState.Unregister | adapters/colmap/colmap_worker_main.cpp:180-184 | neither a token nor a task id is active any more |
| WorkerProtocol.EveryRunIsSafe | adapters/colmap/colmap_worker_main.cpp:84-185 | in every interleaving: an active token is the live one of the registered task, a task is reported cancelled only after a cancel frame for it, each request handled is taken, waiting or overwritten, exactly once, and the threads stop together |
| WorkerProtocol.CancelledExactly | adapters/colmap/colmap_worker_main.cpp:98-104 | in every run a token is cancelled exactly when some step handled a cancel frame for its task while that token was the active one |
| WorkerProtocol.CancelTakesEffect | adapters/colmap/colmap_worker_main.cpp:98-104 | a cancel frame takes effect exactly when it is handled while the task it names is registered |
| WorkerProtocol.NoRequestLost | adapters/colmap/colmap_worker_main.cpp:94-97 | if the host sends a request only when every earlier one has been reported accepted, none is ever overwritten or reordered |
| WorkerProtocol.WaitingForTheEnd | adapters/colmap/colmap_worker_main.cpp:156-185 | a host that waits for the terminal frame of every earlier request waits for its acceptance too, so it loses none either |
| WorkerProtocol.RequestOverwritten | adapters/colmap/colmap_worker_main.cpp:94-97 | without that discipline there is a run that loses a request |
| WorkerProtocol.FramesNeverMix | adapters/colmap/colmap_worker_main.cpp:156-185 | in every run the frames of different tasks never interleave: each trace is accepted, then events, then one terminal frame, heartbeats apart |
| WorkerProtocol.CancelLost | adapters/colmap/colmap_worker_main.cpp:173-178 | a run in which the host waits for every terminal frame, but a cancel frame is handled and the task still ends uncancelled |
| WorkerProtocol.RequestDroppedAtShutdown | adapters/colmap/colmap_worker_main.cpp:156-171 | a run that ends with a request never taken |
| WorkerFraming.ReadExact | adapters/colmap/colmap_worker.cpp:41-52 | however reads are split: exactly the bytes asked for, or all that is left and failure |
| WorkerFraming.WriteExact | adapters/colmap/colmap_worker.cpp:54-65 | however writes are split: all the bytes, or a proper prefix and a broken pipe |
| WorkerFraming.WorkerSendFrame | adapters/colmap/colmap_worker.cpp:189-204 | a whole frame, nothing when the message exceeds 64 MiB, or a cut frame when the pipe breaks |
| WorkerFraming.WorkerRecvFrame | adapters/colmap/colmap_worker.cpp:164-187 | one frame off the stream, end of input, or a protocol error, with what is left unread |
| WorkerFraming.ReceiveUntilFailure | adapters/colmap/colmap_worker_main.cpp:84-93 | the reader's loop receives exactly the messages of the stream |
| WorkerFraming.SendAll | adapters/colmap/colmap_worker.cpp:189-204 | messages sent in turn: all their frames, or the complete frames of the first ones and a proper part of the next, when that one is too long (then not a byte of it) or the pipe breaks |
| WorkerFraming.Transfer | adapters/colmap/colmap_worker.cpp:164-204 | end to end, for any splitting of writes and reads: the messages arrive in order, all of them unless a send fails, and then the end of input |
| WorkerFraming.StreamDecodes | adapters/colmap/colmap_worker.cpp:164-204 | frames sent one after another are received as the same messages, then end of input |
| WorkerFraming.CutStreamDecodes | adapters/colmap/colmap_worker.cpp:164-187 | a stream cut anywhere yields exactly the messages whose frames are complete, then end of input |
| WorkerFraming.UnsynchronisedSendsGarble | adapters/colmap/colmap_worker.cpp:189-204 | two sends whose writes alternate are received as a wrong message and a protocol error |
| WorkerTask.RunStage | adapters/colmap/colmap_adapter.cpp:297-361 | one stage emits its log, then on success its progress and output logs; it throws the cancellation exactly when the token is set before the last of its polls; else nothing exactly when its subprocess exits with code 0, a recoverable time-out for a time-out, and a failed process otherwise |
| WorkerTask.Execute | adapters/colmap/colmap_adapter.cpp:244-402 | emits the stages' events in order, and one artifact at most, only after every stage; what it throws, cancellation included, is decided by the plan, the world and the moment the token is set |
| WorkerTask.WorkerRunTask | adapters/colmap/colmap_worker.cpp:206-278 | when every send succeeds the host gets one whole trace, and its ending (completed, cancelled or which failure) is the one the request, the world and the token decide; a failure is returned only after a failed send |
| WorkerTask.EndingIsDue | adapters/colmap/colmap_worker.cpp:206-278 | how a task ends, read off its request, inputs, exit codes, output and token: invalid plans and missing inputs first, then cancellation in time, then the first stage that was not clean, then the output |
| WorkerTask.HostReadsSuccess | adapters/colmap/colmap_worker.cpp:237-246 | the host reads a completion without cancellation exactly when the plan is known, the inputs are there, every stage exits with code 0, the output can be read and the token is not set in time; it lists that output |
| WorkerTask.HostReadsFailure | adapters/colmap/colmap_adapter.cpp:313-353 | without a cancellation in time the first stage that is not clean decides the failure the host reads: a recoverable time-out, or a failed process |
| WorkerTask.PollsDue | adapters/colmap/colmap_adapter.cpp:297-342 | the token is polled once for each stage that is started and as often as its subprocess runs on |
| WorkerTask.PlanInOrder | adapters/colmap/colmap_config.cpp:436-455 | the plan has exactly the enabled stages, in the order of the pipeline; the first three when none is named |
| WorkerTask.MilestoneIs | adapters/colmap/colmap_adapter.cpp:355 | each percentage is the share of the stages done, rounded down, under the stage's name |
| WorkerTask.MilestonesRise | adapters/colmap/colmap_adapter.cpp:355 | the reported percentages rise to 100, and are at least 1 exactly up to a hundred stages |
| WorkerTask.ProgressRises | adapters/colmap/colmap_adapter.cpp:295-362 | during the stages progress never falls, lies in 1..100, and never says cancelled |
| WorkerTask.HostReadsFrames | adapters/colmap/colmap_worker.cpp:80-278 | every trace starts with its one acceptance and ends with its one terminal frame; an artifact is followed at once by the completion listing it, and a completion lists only such |
| WorkerTask.HostReadsProgress | adapters/colmap/colmap_worker.cpp:247-264 | over the whole trace progress never falls and lies in 1..100 |
| WorkerTask.HostReadsCancellation | adapters/colmap/colmap_worker.cpp:247-264 | the substage cancelled appears exactly in the trace of a stopped task, which has no artifact and empty outputs |
| WorkerTask.CancelledExactly | adapters/colmap/colmap_adapter.cpp:295-342 | a task is stopped exactly when it gets to its stages and the token is set before the last poll they make |
| WorkerTask.HostReadsCancelledToken | adapters/colmap/colmap_worker.cpp:247-264 | the host reads the cancelled substage exactly then |
| WorkerTask.CancelledFromTheStart | adapters/colmap/colmap_adapter.cpp:298-305 | a token set from the start stops every task that gets to its stages |
| WorkerTask.CompletedThoughCancelled | adapters/colmap/colmap_adapter.cpp:295-362 | a task completes with its token set exactly when the token is set after the last poll |
| WorkerTask.LateCancel | adapters/colmap/colmap_adapter.cpp:295-362 | a run of three stages that completes although its token is set |
| ArtifactStores.ArtifactStore.FindArtifactByHash | core/artifacts/artifact_store.cpp:203-205 | finds a row of the hash exactly when there is one |
| ArtifactStores.ArtifactStore.Put | core/artifacts/artifact_store.cpp:42-94 | deduplicates exactly on an indexed hash and then changes nothing; otherwise payload, manifest and row are added in that order |
| ArtifactStores.ArtifactStore.PutInstance | core/artifacts/artifact_store.cpp:96-145 | refuses exactly a missing payload; otherwise writes a manifest and a row, which replaces the row of its id and of its hash |
| ArtifactStores.InstanceReplacesRow | core/artifacts/artifact_store.cpp:96-145 | the instance indexed before for the hash loses its row exactly when the new one has another id; its manifest stays behind and no other row changes |
| ArtifactStores.ArtifactStore.Get | core/artifacts/artifact_store.cpp:147-178 | hands out bytes only with the digest asked for; a mismatch moves the payload to quarantine and marks the row |
| ArtifactStores.ArtifactStore.GarbageCollect | core/artifacts/artifact_store.cpp:207-258 | plans exactly the unindexed payloads and manifests, and removes exactly the plan unless dry |
| ArtifactStores.UpsertIndexes | core/artifacts/artifact_store.cpp:70-86 | which hashes are indexed after a row is written: the new one, and the old ones except that of the row replaced |
| ArtifactStores.CollectionIsComplete | core/artifacts/artifact_store.cpp:207-258 | after a collection exactly the indexed payloads and manifests are left, unchanged, and a second plan is empty |
| ArtifactStores.PutThenGet | core/artifacts/artifact_store.cpp:42-94 | bytes just put can be read exactly when the file of that name held them already, or there was neither file nor row |
| ArtifactStores.PutDoesNotHeal | core/artifacts/artifact_store.cpp:147-178 | after a failed integrity check the bytes cannot be made readable by putting them again |
| ArtifactRuns.PutAgainInVain | core/artifacts/artifact_store.cpp:42-178 | a run that puts bytes, finds them corrupted and puts them again: the hash is indexed and unreadable |
| ArtifactRuns.NothingIndexedIsLost | core/artifacts/artifact_store.cpp:42-178 | over every run with crashes between writes and external corruption, every indexed hash has its payload in the store or in quarantine |
| ArtifactRuns.CollectionEndsClean | core/artifacts/artifact_store.cpp:207-258 | when a collection ends every payload on disk is indexed and a second plan is empty |
| ArtifactRuns.IndexedForever | core/artifacts/artifact_store.cpp:42-178 | a hash once indexed stays indexed |
| ArtifactRuns.GetReturnsWhatWasPut | core/artifacts/artifact_store.cpp:147-178 | without corruption every read of an indexed hash returns exactly the bytes put, forever |
| ArtifactRuns.NeverWrongBytes | core/artifacts/artifact_store.cpp:147-178 | even under corruption a read returns the right bytes or none |
| ArtifactRuns.ReusedIdDropsHash | core/artifacts/artifact_store.cpp:63-86 | a hash loses its row exactly when another is put under the id that stood for it |
| ArtifactRuns.ReusedIdLosesPayload | core/artifacts/artifact_store.cpp:63-86 | two puts under one id and a collection: the first payload is gone |
| Folds.GroupsPartition | core/geometry/reprojection.h:285-348 | grouping by the sorted distinct ids loses and repeats no element: the groups fold to what the whole does |
| Folds.FoldPermutes | core/geometry/reprojection.h:270-283 | a sum over the observations does not depend on their order |
| Folds.IdsPermute | core/geometry/reprojection.h:287-295 | nor do the sorted distinct ids |
| Reprojection.SortRealsCorrect | core/geometry/reprojection.h:241-242 | the sorted residuals ascend and are the same residuals |
| Reprojection.EvaluateReprojection | core/geometry/reprojection.h:186-354 | no metrics unless every observation can be measured; otherwise the metrics of the residuals, and each residual classified by the threshold |
| ReprojectionMeaning.ThresholdIs | core/geometry/reprojection.h:107-110 | the threshold is the larger of three medians and two pixels, so a residual of at most two pixels is an inlier |
| ReprojectionMeaning.MedianIs | core/geometry/reprojection.h:240-248 | the median is the middle of any ascending arrangement of the residuals, or the mean of its two middle ones |
| ReprojectionMeaning.MetricsAre | core/geometry/reprojection.h:250-283 | total, inliers and outliers count the observations; mean and mean square are those of the inliers' residuals |
| ReprojectionMeaning.ImageMetricsAre | core/geometry/reprojection.h:285-321 | the same for each image's own observations |
| ReprojectionMeaning.PointMetricsAre | core/geometry/reprojection.h:322-348 | the same for each point's own observations |
| ReprojectionMeaning.AggregatesListed | core/geometry/reprojection.h:285-348 | one aggregate for each image and each point that is observed, in ascending order of id |
| ReprojectionMeaning.FirstFailureDecides | core/geometry/reprojection.h:186-238 | an evaluation fails exactly when some observation cannot be measured, with the error of the first one |
| ReprojectionMeaning.WhyUnmeasured | core/geometry/reprojection.h:191-224 | the unknown-image and unknown-point errors are given exactly when no view, or a view but no point, has the id |
| ReprojectionLaws.AggregatesAgree | core/geometry/reprojection.h:285-348 | the image and the point aggregates both add up to the global counts, inliers and inlier_count·mean, the images also to inlier_count·rmse² |
| ReprojectionLaws.MomentsOrdered | core/geometry/reprojection.h:270-283 | mean² ≤ rmse² ≤ threshold² |
| ReprojectionLaws.MedianBelowThreshold | core/geometry/reprojection.h:107-110 | the lower half of the sorted residuals, and one more, is within the threshold |
| ReprojectionLaws.MajorityInliers | core/geometry/reprojection.h:240-268 | more than half of the observations are inliers |
| ReprojectionLaws.MetricsPermute | core/geometry/reprojection.h:186-354 | permuting the residuals changes no metric |
| ReprojectionLaws.EvaluationPermutes | core/geometry/reprojection.h:186-354 | permuting the observations changes neither success nor result |
| Triangulation.TriangulateTwoRays | core/geometry/triangulation.h:135-216 | accepted exactly for rays that are not parallel, a point in front of both cameras and enough parallax; which rejection exactly when |
| Triangulation.FeetOrthogonal | core/geometry/triangulation.h:157-177 | the difference of the foot points is orthogonal to both rays |
| Triangulation.FeetClosest | core/geometry/triangulation.h:157-177 | no other pair of points on the two lines is closer |
| Triangulation.MeetingPointFound | core/geometry/triangulation.h:157-177 | lines that meet are triangulated exactly at their meeting point |
| Triangulation.TriangulatedClosest | core/geometry/triangulation.h:157-177 | for viewing lines that are not parallel the triangulated point has the least sum of squared distances from them of all points |
| Triangulation.DepthInCamera | core/geometry/triangulation.h:187-199 | the depth of a point is its third coordinate as the camera sees it |
| Triangulation.NarrowByCosine | core/geometry/triangulation.h:200-214 | the parallax test fails exactly when the rays' dot product exceeds the cosine times the product of their lengths |
| Retriangulation.Retriangulate | core/geometry/triangulation.h:269-571 | the two passes and the emission loop are candidates measured, judged by one threshold, and emitted in order |
| RetriangulationLaws.PointsConserved | core/geometry/triangulation.h:513-568 | preserved + replaced + rejected is the source count, one lineage entry per source point in order, one point per entry not rejected |
| RetriangulationLaws.TracksVerbatim | core/geometry/triangulation.h:535-565 | emitted points keep the source order and carry their own tracks and colours |
| RetriangulationLineage.LineageTargets | core/geometry/triangulation.h:511-565 | each entry's target is the id of the new point its source became: the source's own id exactly for a point that moved less than the stability distance, else an id from 10001 on, rising in order; 0 for a rejected one |
| RetriangulationLineage.CountsLineages | core/geometry/triangulation.h:513-565 | the three counts are the numbers of lineage entries of each kind |
| RetriangulationLineage.PassedExactly | core/geometry/triangulation.h:452-475 | a candidate passes exactly when it meets the geometric tests and its residual is at most two pixels or three medians of the measured ones |
| RetriangulationLineage.EmittedWithin | core/geometry/triangulation.h:452-475 | the error of every emitted point is at most two pixels or three medians |
| RetriangulationLineage.UsableExactly | core/geometry/triangulation.h:405-430 | a measurement uses exactly the track elements with a view and a keypoint, as often as they occur |
| RetriangulationLineage.MeasuredMeans | core/geometry/triangulation.h:225-252 | a measured residual is the mean over at least two usable observations, or the sentinel when the point is not in front of them all |
| RetriangulationLaws.NewPointsAreSound | core/geometry/triangulation.h:187-214 | every emitted point has a residual within the threshold, positive depth in both triangulation cameras and enough parallax, and is the midpoint of their two viewing lines |
| RetriangulationLaws.NewIdsDistinct | core/geometry/triangulation.h:511-554 | with distinct source ids the output ids are distinct exactly when no preserved id lies among the fresh ones handed out |
| RetriangulationLaws.FreshRangeSuffices | core/geometry/triangulation.h:511-554 | distinct source ids outside the range from 10001, one shorter than the points, give distinct output ids |
| RetriangulationCases.DistinctOutputsExactly | core/geometry/triangulation.h:511-554 | for given distinct source ids all outputs have distinct ids exactly when none of them lies in that range |
| RetriangulationCases.TwoPointsClash | core/geometry/triangulation.h:511-554 | two points, one staying in place under the id 10001 and one moving, that come out under one id |
| RetriangulationCases.FreshIdClashes | core/geometry/triangulation.h:511-554 | whenever an id lies in the range there is an input with these ids whose output repeats one |
| RetriangulationLaws.MajorityEmitted | core/geometry/triangulation.h:397-479 | more than half of the candidates that pass the geometric tests are emitted |
| RetriangulationLaws.EveryoneMeasured | core/geometry/triangulation.h:399-450 | with distinct source ids the first pass measures exactly the candidates that pass the geometric tests |
| RetriangulationLaws.ResidualsNonNegative | core/geometry/triangulation.h:225-252 | mean residuals of non-negative residuals are non-negative |
| RetriangulationLaws.BehindMeasured | core/geometry/triangulation.h:225-252 | a measured point behind one of its cameras gets the sentinel |
| RetriangulationLaws.BehindEmittedByHalf | core/geometry/triangulation.h:452-475 | when the other residuals are ordinary such a point is emitted exactly when at least half of the measured ones are behind a camera |
| RetriangulationCases.PointBehindEmitted | core/geometry/triangulation.h:241-244 | three cameras and a point behind the third that is emitted with the sentinel as its error |
| RetriangulationCases.AllMeasuredExactly | core/geometry/triangulation.h:405-475 | every tested candidate is measured, for all inputs with given source ids, exactly when the ids are distinct |
| RetriangulationCases.RepeatedIdUnmeasured | core/geometry/triangulation.h:405-475 | two points under one id, of which the second is emitted unmeasured, with residual zero and without its track |
| CameraModels.UndistortUnit | core/geometry/camera_model.h:393-408 | the loop stops at the first iterate within the tolerance, or after a hundred steps |
| CameraModels.ResidualAfterSteps | core/geometry/camera_model.h:393-408 | with Lipschitz constant q on the iterates the residual after k steps is at most q^k times the first |
| CameraModels.ConvergesInTime | core/geometry/camera_model.h:393-408 | with q ≤ 3/4 and first residual ≤ 1 the tolerance test is met within ninety steps |
| LensContraction.BendLipschitz | core/geometry/camera_model.h:320-337 | in the unit square the distortion beyond the identity is Lipschitz with a constant read off the five coefficients |
| LensContraction.UndistortSucceeds | core/geometry/camera_model.h:393-408 | when that constant and the point leave room, the tolerance test is met within ninety steps, so the loop never runs out of iterations |
| PixelRoundTrip.Undistorted | core/geometry/camera_model.h:393-408 | the result distorts back exactly when one of the first hundred iterates is within the tolerance, as it is for every tame pixel |
| PixelRoundTrip.Unproject | core/geometry/camera_model.h:288-302 | the ray has unit length and points forward, and projects back to its pixel (within 1e-10 focal lengths) exactly when the inversion settles |
| PixelRoundTrip.PinholeProjects | core/geometry/camera_model.h:272-286 | without distortion a point (X, Y, Z) in front projects to (fx·X/Z + cx, fy·Y/Z + cy) |
| PixelRoundTrip.NotInFront | core/geometry/camera_model.h:272-286 | a projection is refused exactly for a point that is not in front |
| PixelRoundTrip.CoefficientsMove | core/geometry/camera_model.h:320-337 | what k1, k2, k3, p1 and p2 each add to the two coordinates, monomial by monomial |
| PixelRoundTrip.NeverConverges | core/geometry/camera_model.h:393-408 | an accepted lens and a point for which no number of steps suffices |
| Cheirality.VoteCheirality | adapters/visual_geometry/essential_verifier.cpp:340-382 | succeeds exactly when one candidate alone has the most votes and more than half of the inliers', and returns that one |
| CheiralityLaws.FlipNegatesDepths | adapters/visual_geometry/essential_verifier.cpp:300-331 | negating the translation negates both depths |
| CheiralityLaws.OppositeVotes | adapters/visual_geometry/essential_verifier.cpp:350-369 | votes(R,t) + votes(R,-t) never exceeds the inlier count |
| CheiralityLaws.ExactDepths | adapters/visual_geometry/essential_verifier.cpp:300-331 | rays that meet are given the depths of their meeting point, with the right signs |
| CheiralityLaws.DepthsLeastSquares | adapters/visual_geometry/essential_verifier.cpp:300-331 | for any two rays the depths are those of the least-squares solution: what is left between the points is orthogonal to both rays |
| TwistedPair.TwistedSplits | adapters/visual_geometry/essential_verifier.cpp:300-331 | a point in front of both cameras of one candidate is behind one camera of the candidates with the other rotation |
| TwistedPair.ExactVotesOnce | adapters/visual_geometry/essential_verifier.cpp:350-369 | an exact inlier votes for its candidate and for none of the other three |
| TwistedPair.ExactMajorityWins | adapters/visual_geometry/essential_verifier.cpp:340-382 | if more than half of the inliers are exact for a candidate the vote succeeds with it, whatever the others are |
| TwistedPair.DecompositionIsTwisted | adapters/visual_geometry/essential_verifier.cpp:270-289 | the two rotations of the decomposition are half a turn about the translation apart, for orthogonal singular vectors |
| Matching.FillTable | adapters/visual_matching/visual_matcher_adapter.h:57-81 | each row's entry is its first nearest row if that is within the threshold |
| Matching.MatchScore | adapters/visual_matching/visual_matcher_adapter.h:43-91 | the score is the number of matches |
| Matching.MatchCorrespondences | adapters/visual_matching/visual_matcher_adapter.h:98-152 | lists exactly the matches that are counted, in order of their source rows, each with its distance |
| MatchingLaws.ZeroExactly | adapters/visual_matching/visual_matcher_adapter.h:155-164 | the sum of squares is zero exactly for rows that agree in every coordinate |
| MatchingLaws.OneCoordinate | adapters/visual_matching/visual_matcher_adapter.h:155-164 | changing one coordinate exchanges its squared difference and no other |
| MatchingLaws.DistanceIsMetric | adapters/visual_matching/visual_matcher_adapter.h:155-164 | with a square root, rows of one length have distance zero exactly when they are equal |
| MatchingLaws.MatchesInject | adapters/visual_matching/visual_matcher_adapter.h:84-89 | a source row has one match at most; in mutual mode a target row too |
| MatchingLaws.SwapTransposes | adapters/visual_matching/visual_matcher_adapter.h:43-152 | swapping the frames transposes the mutual matches |
| MatchingLaws.ScoreSymmetric | adapters/visual_matching/visual_matcher_adapter.h:43-91 | the mutual score is symmetric |
| MatchingLaws.OneWayScoreAsymmetric | adapters/visual_matching/visual_matcher_adapter.h:84-89 | without the mutual test it is not |
| MatchingLaws.MatchExists | adapters/visual_matching/visual_matcher_adapter.h:43-91 | two comparable frames have a match, mutual or not, exactly when some two rows are within the threshold |
| MatchingLaws.ReconstructCorrespondences | core/loop_closure/correspondence_reconstruction.h:41-76 | names malformed features or an index out of range exactly when there is one; otherwise keeps the finite correspondences, one per target |
| MatchingLaws.KeptSound | core/loop_closure/correspondence_reconstruction.h:60-73 | for any matcher: no target is kept twice, what is kept is finite, and a finite one is dropped only for one kept for its target |
| MatchingLaws.Correspondences | core/loop_closure/correspondence_reconstruction.h:41-76 | with the mutual matcher nothing is out of range and only correspondences with keypoints that are not finite are dropped |

## Left out

- Rounding and overflow in the geometry: distances, depths, medians, residuals and lens iterates are exact reals.
- Binary64.DoublePoseRoundTrip: asks that each translation component be the pattern its own value rounds to, which excludes a negative zero; fused multiply-add instructions are not modelled.
- ColmapRoundTrip.RoundTrip: names of 2^32 bytes and more, and lists of 2^64 entries and more, are excluded; a longer name is written under a truncated length.
- Memory: a count in a file is believed up to the bytes left, and allocation never fails.
- The contents of cameras.bin, images.bin and points3D.bin while they are open, and failures of the file system; only refused doubles stop the writer.
- Provenance, epochs, scene and session ids, and the JSON forms of models, configurations and manifests.
- The order std::sort gives to records with equal ids, and which of two keypoints with the same key re-triangulation finds.
- Fisheye and field-of-view lenses, which need transcendental functions, and the selection of a lens by name.
- LensContraction.UndistortSucceeds: the constant is one sufficient bound on the unit square, not the best one; outside it `PixelRoundTrip.Undistorted` gives the exact condition on the iterates.
- RetriangulationLaws.MajorityEmitted: keypoints that are not finite are refused by the source before the candidates are built, which the model does not repeat.
- Triangulation.TriangulateTwoRays: the parallax test compares squared cosines with a given cosine instead of taking an arc cosine.
- The singular value decomposition, the eight-point estimate and the random sampling before the vote; the decomposition enters through `TwistedPair.DecompositionIsTwisted`, with the common sign that makes both rotations proper as a parameter.
- MatchingLaws.Correspondences: emitted indices are 32 bits wide, so distinct targets are promised for at most 2^32 rows; distances and the threshold are finite.
- WorkerProtocol.EveryRunIsSafe: sending a frame and each critical section are single steps; memory ordering and time-outs are not modelled, except that any thread may be delayed at will.
- The message codec is a parameter with parse(serialize(m)) = m; interrupted system calls are not distinguished from broken pipes.
- ArtifactRuns.NothingIndexedIsLost: ids generated by the store are fresh, a collection does not run beside a put, and a crash falls between the payload, manifest and row writes, each of which is atomic.
- Artifact dependencies, temporary files, unreadable manifests and the order in which a collection removes files.
- Process control, environment checks, the metadata database, the engine and the optimiser adapters.
