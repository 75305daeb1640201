# A Dafny model of the 06cb:0082 fingerprint driver and its tools

The repository drives a Synaptics/PQI 06cb:0082 press sensor from libfprint and studies the vendor's
protocol with a set of small programs. This project models both and proves what they promise.

* **The driver.** `DriverModel` describes every callback of the driver as a function on a snapshot of its
  fields, of the USB transfers and timer it has started, and of what it has told the framework.
  `DriverDevice` is the driver in its own form: an object whose callbacks update its fields and write into
  the `scan_02` buffer; each callback is proved equal to its function, and `Handle` ties them to the events.
  `DriverInvariant` holds the invariant and its preservation by every event; `DriverTheorems` states what
  follows for every run; `DriverScenario` contains concrete runs and the statements about overlapping transfers;
  `DriverRelease` says over whole runs when the release gate keeps a held finger out, and when it does not.
  `DriverEffects` spells out, in bytes, lengths and fields, what each event writes, starts and reports, and which
  pixels an image carries.
* **Feature records and matching.** `FeatureCodec` (the byte format), `Gallery` (extract, append, match) and
  `MatchDecision` (the driver's decision rule against the Python reference). `Enrollment` joins the driver and the
  gallery over a whole enrollment.
* **Index and search.** `RepeatedRuns`, `CallerTree`, `Provenance`, `DescriptorCatalog`, `PrefixCheck`.
* **Captures and images.** `Transactions`, `CaptureDiff`, `ImageFrame`, `Raster`, `Pgm`. `Bytes` holds the
  little-endian integers they share.

## How the driver is modelled

One event is one entry into the driver: a USB completion, the wake timer, an activation, a deactivation or a
state notification. A completion carries any result (data, timeout, disconnect, cancellation, other failure;
a command read that succeeds has all the bytes it asked for, because `short_is_error` is set) and any behaviour
of the framework inside the call that the driver makes to it. A run is any sequence of such events from a
freshly opened device, over any number of activations.

The framework is bound by a contract, because most of it is not in the repository:

* an activation starts only when nothing of the previous one is outstanding;
* AWAIT_FINGER_ON is announced only to a device that is active and not deactivated, once after a successful
  activation and once after each image, and never while an interrupt, a capture read or a re-arm transfer is
  outstanding. Announcing it from *inside* `image_captured` is allowed, and covered;
* an image that arrives after deactivation is dropped; the device is deactivated at most once per activation;
* an interrupt without a timeout does not time out.

The half of the framework that is in patch 0002 (synchronous processing of the print, the stage counter and
the deactivation at the last stage) is modelled as it is written there.

Findings about the code:

* `deactivating` is never true when a callback runs, because `dev_deactivate` sets and clears it in one call.
  Everything that tests it is without effect. In particular the handshake does not see a deactivation
  (`HandshakeIgnoresDeactivation`): after a deactivation in the middle of the wake wait the timer restarts the
  handshake, the whole of it is run, and the success of an activation is reported to a framework that was told
  before that the device is deactivated (`ReportedAfterDeactivation`). The last image of an
  enrollment leaves one release interrupt behind (`CaptureLeavesInterrupt`).
* The comment in `dev_extract_print` says that finger-off is reported early on the final enrollment stage. The
  code compares the number of captures, rejected ones included, with the number of stages, so after a rejected
  capture the report comes on a stage that is not the last, and not on the last one
  (`EarlyFingerOffExactly`, `RejectedCaptureOverlaps`). The model follows the code.
* `docs/install.md` promises that a held touch cannot satisfy two enrollment stages. That is so as long as no two
  interrupts are outstanding together: between any two images there is then a quiet interval, in which one
  interrupt, alone, was submitted and ran out without a report of the device (`HeldFingerLaw`); a sensor that keeps
  reporting a held finger within the 600 ms does not let that happen. It is not so in general. From every state in which a second interrupt is outstanding while a release is awaited, the older one can
  time out between two reports of a finger that never left, and the next report starts a capture
  (`TwoInterruptsOpenTheGate`); a reachable run counts two stages that way (`HeldFingerCountsTwice`). The framework
  can rule it out: when AWAIT_FINGER_ON is never announced from inside the delivery of an image, the law holds for
  the whole run (`HeldFingerInPlainRuns`).
* When AWAIT_FINGER_ON is announced from inside the delivery of an image, two transfers are outstanding that
  lead on, and only then (`OverlapExactly`). In runs without that, every interrupt timeout is the release of the
  finger (`TimeoutsAreReleases`). After it, the interrupt of the re-arm gets the release timeout as well, and the
  second timeout ends the enrollment in a session error (`OverlapEndsSession`).
* Matching an extracted probe with the print of an enrollment is an error exactly when no touch of the
  enrollment was usable, because the print then has no data (`EnrolledErrsExactly`, `EmptyEnrollmentErrs`). Such a
  print is never handed out: the framework completes an enrollment when its stage counter reaches the number of
  stages, the counter is the number of samples, and with a completed enrollment there is no error
  (`StagesAreSamples`, `CompletedEnrollmentNeverErrs`).
* `dev_activate` clears `awaiting_release` but leaves the release interrupt of the session before, so an activation
  that started while it is outstanding would get its timeout as a session error (`EarlyActivationFails`). The
  contract excludes that; the interrupt does outlive sessions (`ReleaseOutlivesSession`).
* `patches/README.md` describes patch 0007 as silencing a disconnect after the session; the patch and the driver
  source contain the early finger-off report instead. The model follows the driver source.
* The driver's decision rule and the Python reference are not the same rule (`RulesCompared`, `RulesDiffer`).
* The C# reader rejects printed images whose first pixel is at most 0x20 (`VendorReadsPrinted`).

## Model

| member | source | states |
|---|---|---|
| DriverTheorems.WritesFollowProtocol | patches/libfprint/syna0082.c:345-447 | in every reachable state the EP_OUT writes of the activation are at most one abandoned prefix of the init requests, then a prefix of 1a, 01, 19, 75, config-39, config-06, scan-02 followed by 51, config-39, scan-02 with the re-arm mode, over and over |
| DriverEffects.ProtocolMessages | patches/libfprint/syna0082.c:399-447 | the messages of the protocol one by one, in bytes: the seven requests, then 51 00 20 00 00, the 0x39 message and scan_02 with 0x23 at offset 1749 |
| DriverEffects.Config39Bytes | patches/libfprint/syna0082.c:57-75 | the 0x39 message is 125 bytes, zero but for the seventeen of the source's table |
| DriverTheorems.ScanChangesOnlyItsMode | patches/libfprint/syna0082.c:587-593 | over the whole open session scan_02 equals the loaded blob except at offset 1749, which holds its loaded value or 0x23 |
| DriverTheorems.OneCapturePerFingerOn | patches/libfprint/syna0082.c:277-291 | in every activation there are exactly as many capture commands as finger-on reports |
| DriverTheorems.ReadsMatchLastWrite | patches/libfprint/syna0082.c:368-397 | every pending command read of the handshake or the re-arm asks for the length that belongs to the message written last |
| DriverTheorems.HandshakeLaw | patches/libfprint/syna0082.c:315-524 | one handshake transfer or wake timer at a time and nothing beside it; at most one wake wait, one report and 30 transfers; a reported success has all fifteen transfers behind it since the restart, the control transfer first; no lookup beyond the table |
| DriverTheorems.HandshakeProgress | patches/libfprint/syna0082.c:345-489 | while the handshake is under way every completion and every wake timer lowers a measure, every other event leaves it alone, and the handshake stays under way until activate_complete is called |
| DriverTheorems.HandshakeEnds | patches/libfprint/syna0082.c:328-524 | no run, however its transfers end and whenever the device is deactivated, stays in the handshake for more than 32 completions and timers |
| DriverEffects.SuccessWasAnswered | patches/libfprint/syna0082.c:464-489 | over every run, when an activation is reported as a success its last control response was two zero bytes |
| DriverEffects.ControlAnswer | patches/libfprint/syna0082.c:478-488 | a control response of two zero bytes makes the driver write 1a; any other is one failure report, and nothing is written or started |
| DriverEffects.HandshakeFailure | patches/libfprint/syna0082.c:328-343 | a handshake transfer that fails starts the wake wait on the first disconnect of the activation, and is one failure report otherwise; nothing is written |
| DriverEffects.RequestWritten | patches/libfprint/syna0082.c:368-397 | a written request is followed by one read of 2, 38, 68, 10, 2, 2 or 2154 bytes, by stage |
| DriverEffects.ReplyRead | patches/libfprint/syna0082.c:345-366 | a read that succeeds is followed by the next request, the seventh by the one report of success |
| DriverEffects.TimerRestarts | patches/libfprint/syna0082.c:451-462 | the wake timer starts the control transfer again, from stage 0 |
| DriverEffects.ActivationBegins | patches/libfprint/syna0082.c:513-524 | an activation starts with the control transfer alone and with the fields reset |
| DriverTheorems.HeldFinger | patches/libfprint/syna0082.c:194-199 | in every run, enrollment stages never exceed images, images never exceed one plus the release timeouts, and a capture is outstanding only while no release is awaited |
| DriverTheorems.CapturesStartReleased | patches/libfprint/syna0082.c:277-288 | only a finger-on event seen while no release is awaited starts a capture |
| DriverTheorems.QuietMeansReleaseTimeout | patches/libfprint/syna0082.c:260-269 | every release timeout counted is that of a 600 ms release interrupt |
| DriverEffects.InterruptAnswer | patches/libfprint/syna0082.c:277-290 | a finger-on event (5 bytes, 03, 42 or 43, 04) while no release is awaited is reported and starts one capture with the 51 message; any other report starts the next interrupt only, with 600 ms while a release is awaited |
| DriverEffects.InterruptEnded | patches/libfprint/syna0082.c:252-273 | a cancelled interrupt is dropped, a timeout while a release is awaited opens the gate and reports finger-off, anything else is a session error |
| DriverEffects.RearmAnswer | patches/libfprint/syna0082.c:528-607 | the re-arm: reads of 2 and 2154 bytes, scan_02 with 0x23 at offset 1749 after the first, the next interrupt after the second |
| DriverEffects.TransferFailed | patches/libfprint/syna0082.c:154-212 | a failed transfer, or a capture read that is no image, is one session error and starts nothing |
| DriverEffects.NotificationEffects | patches/libfprint/syna0082.c:609-624 | AWAIT_FINGER_ON starts an interrupt before the first capture and the re-arm after it; other states start nothing |
| DriverTheorems.DeactivationLeavesEverything | patches/libfprint/syna0082.c:626-633 | a deactivation changes no field of the driver and no outstanding transfer |
| DriverTheorems.HandshakeIgnoresDeactivation | patches/libfprint/syna0082.c:451-462 | a deactivation before a completion or the wake timer of the handshake has the outcome of one after it: the restart, the writes, the transfers and the report are those of a device that was not deactivated |
| DriverScenario.DeactivatedWakeWait | patches/libfprint/syna0082.c:328-343 | a deactivated device with a wake timer outstanding is reachable |
| DriverScenario.ReportedAfterDeactivation | patches/libfprint/syna0082.c:451-462 | from there the whole handshake is run and a success is reported to a framework that had deactivated the device |
| DriverTheorems.CaptureLeavesInterrupt | patches/libfprint/syna0082.c:193-199 | after every accepted frame a release interrupt is outstanding, also when the frame completed the final stage and the device is deactivated |
| DriverEffects.ImageShowsFrame | patches/libfprint/syna0082.c:185-194 | an accepted frame is delivered as exactly one image of 56 * 144 bytes, whose pixel at row y and column x is byte 18 + 144 * x + y of the frame |
| DriverEffects.OnlyFramesDeliver | patches/libfprint/syna0082.c:141-200 | no other event delivers an image |
| DriverTheorems.EarlyFingerOffExactly | patches/libfprint/syna0082.c:736-746 | whatever the framework does, finger-off is reported early exactly when features were extracted and the captures reach the number of stages; for a kept sample that is the final stage if and only if no capture was rejected before, or neither count reaches the number of stages |
| DriverTheorems.FinishSays | patches/0002-feat-syna0082-add-independent-small-area-matcher.patch:760-788 | one accepted frame as the framework processes it before the call returns: the stage is counted when the print was extracted and appended, the last stage deactivates the device, and finger-off is reported at most once and only when taken for the last |
| DriverTheorems.SessionErrorsExactly | patches/libfprint/syna0082.c:128-139 | every failed transfer of an activated device, other than a cancelled interrupt and a release timeout, is reported as exactly one session error, and nothing else is |
| DriverScenario.RejectedCaptureOverlaps | patches/libfprint/syna0082.c:736-746 | a reachable run of two stages, the first capture rejected, in which finger-off is reported on a stage that is not the last and a re-arm and a release interrupt are outstanding together |
| DriverScenario.ActivationSucceeds | patches/libfprint/syna0082.c:513-524 | the contract lets an undisturbed activation reach the state in which a finger is awaited |
| DriverScenario.OverlapExactly | patches/libfprint/syna0082.c:609-624 | two transfers that lead on come to be outstanding together if and only if AWAIT_FINGER_ON is announced from inside the delivery of an accepted frame |
| DriverScenario.TimeoutsAreReleases | patches/libfprint/syna0082.c:260-272 | in every run without such an announcement at most one transfer that leads on is outstanding and every interrupt timeout is the release of the finger |
| DriverScenario.OverlapEndsSession | patches/libfprint/syna0082.c:260-272 | the run of the rejected capture goes on to a state with two release interrupts, whose second timeout is a session error |
| DriverRelease.HeldFingerLaw | patches/libfprint/syna0082.c:194-199 | between any two images of an activation during which no two interrupts are outstanding, some event submits a release interrupt that is alone and hears nothing until its timeout |
| DriverRelease.HeldFingerInPlainRuns | patches/libfprint/syna0082.c:194-199 | the same for every run in which AWAIT_FINGER_ON is never announced from inside a delivery; no completing interrupt leaves an older one outstanding |
| DriverRelease.TwoInterruptsOpenTheGate | patches/libfprint/syna0082.c:244-291 | from every reachable state with two interrupts outstanding while a release is awaited, the gate can open between two reports of the finger |
| DriverRelease.HeldFingerCountsTwice | patches/libfprint/syna0082.c:244-291 | a reachable run in which the device reports nothing but the finger and two stages are counted without a quiet interval between them |
| DriverRelease.GateOpens | patches/libfprint/syna0082.c:260-269 | the gate of an activation opens through the timeout of a release interrupt only |
| DriverRelease.EarlyActivationFails | patches/libfprint/syna0082.c:513-524 | an activation that starts while a release interrupt is outstanding gets its timeout as a session error before it has reported anything |
| DriverRelease.ReleaseOutlivesSession | patches/libfprint/syna0082.c:193-199 | a deactivated device with a release interrupt outstanding is reachable |
| DriverInvariant.StepKeepsInv | patches/libfprint/syna0082.c:119-633 | every event the contract allows keeps the invariant |
| DriverInvariant.RunKeepsInv | patches/libfprint/syna0082.c:119-633 | every state of every run satisfies the invariant |
| DriverDevice.Syna0082.Handle | patches/libfprint/syna0082.c:119-633 | every entry into the driver is one step of the model and keeps the invariant |
| DriverDevice.Syna0082.CompleteDeactivation | patches/libfprint/syna0082.c:119-126 | in every valid state it changes nothing: there is never a deactivation left to complete |
| DriverDevice.Syna0082.FailSessionOrDeactivate | patches/libfprint/syna0082.c:128-139 | in every valid state exactly one session error is reported, whatever the framework does with it |
| DriverDevice.Syna0082.CaptureReadCb | patches/libfprint/syna0082.c:141-200 | the frame checks, the transposed image that is delivered, and the gate that is closed afterwards |
| DriverDevice.Syna0082.CaptureWriteCb | patches/libfprint/syna0082.c:202-212 | a written capture command changes nothing, a failed one is exactly one session error |
| DriverDevice.Syna0082.InitWriteCb | patches/libfprint/syna0082.c:368-397 | one read of the length in the table, inside its bounds |
| DriverDevice.Syna0082.RearmSendStage | patches/libfprint/syna0082.c:574-607 | the re-arm message, with byte 1749 of the buffer patched in place for the second |
| DriverDevice.Syna0082.DevDeactivate | patches/libfprint/syna0082.c:626-633 | in every valid state the framework is told at once, and no field and no transfer changes |
| DriverDevice.DevOpen | patches/libfprint/syna0082.c:635-673 | a device comes back exactly when reset, both blob checks and the claim succeed, in the initial state of every run |
| FeatureCodec.DecodeFeatures | patches/libfprint/syna0082-matcher.cpp:92-182 | the decoder's result, its first error included; after the length check no bounds check can fail |
| FeatureCodec.ReadU32 | patches/libfprint/syna0082-matcher.cpp:62-76 | succeeds exactly inside the bounds, and then advances by four |
| FeatureCodec.AcceptedExactly | patches/libfprint/syna0082-matcher.cpp:103-180 | accepted if and only if magic, count in 8 to 700, length 12 + 520 * count, and all words finite |
| FeatureCodec.DecodeOfEncode | patches/libfprint/syna0082-matcher.cpp:42-60 | decoding the encoding of any 8 to 700 finite rows returns them |
| FeatureCodec.EncodeOfDecode | patches/libfprint/syna0082-matcher.cpp:92-182 | encoding what was decoded from any accepted bytes returns those bytes |
| FeatureCodec.UnclampedIsRejected | patches/libfprint/syna0082-matcher.cpp:224-231 | a record of more than 700 rows is one no decoder accepts |
| FeatureCodec.RecordBytes | patches/libfprint/syna0082-matcher.cpp:92-182 | acceptance byte by byte: SY82FT01, a little-endian count from 8 to 700, 520 bytes per row, exponent bits not all ones; row i is x, y and 128 words, in this order |
| FeatureCodec.RefusalBytes | patches/libfprint/syna0082-matcher.cpp:103-180 | which error a refused record gets: header, count, length, or the first word that is not finite, with its row and column |
| Gallery.Extract | patches/libfprint/syna0082-matcher.cpp:185-259 | the record of the clamped detector output, or which error |
| Gallery.ExtractedRows | patches/libfprint/syna0082-matcher.cpp:224-258 | with at least eight finite keypoints the record decodes to the first 700 of them, each with its x, y and descriptor; with fewer there is no record |
| Gallery.ExtractedDecodes | patches/libfprint/syna0082-matcher.cpp:224-258 | for any detector output an extracted record decodes to the kept rows |
| Gallery.AppendPrint | patches/libfprint/syna0082.c:757-793 | the scan goes to the end of the gallery, or nothing changes; succeeds exactly for the right data types |
| Gallery.EnrollAll | patches/libfprint/syna0082.c:711-793 | repeated extract and append keep one record per usable touch, in scan order; the print has no data exactly as long as there is none |
| Gallery.EnrolledAt | patches/libfprint/syna0082.c:783-791 | each usable touch left its own record, behind those of the usable touches before it |
| Gallery.EnrolledErrsExactly | patches/libfprint/syna0082.c:795-851 | matching an extracted probe with the print of an enrollment is an error if and only if every touch of it had fewer than eight keypoints |
| Gallery.EmptyEnrollmentErrs | patches/libfprint/syna0082.c:693-709 | one touch without keypoints, after which every match is an error |
| Enrollment.StageCountedExactly | patches/0002-feat-syna0082-add-independent-small-area-matcher.patch:760-788 | every event of an activation counts a stage exactly when an image of a live enrollment is extracted and appended |
| Enrollment.StagesAreSamples | patches/libfprint/syna0082.c:711-793 | over every run of an enrollment the stage counter is the number of records that extract and append have put into the gallery |
| Enrollment.CompletedEnrollmentNeverErrs | patches/libfprint/syna0082.c:795-851 | the print of a completed enrollment holds one sample per stage, and matching an extracted probe with it is never an error |
| Gallery.MatchPrint | patches/libfprint/syna0082.c:795-851 | the accumulator loop with its early return computes the decision over all scores, or the error |
| Gallery.MatchExactly | patches/libfprint/syna0082.c:814-850 | a match if and only if some sample fits the probe and some sample has eight inliers with it or two fit it; an error if and only if a record does not decode; scores are those of sample and probe |
| Gallery.OrderIndependent | patches/libfprint/syna0082.c:805-850 | the result, error included, does not depend on the order of the gallery |
| Gallery.MoreSamplesKeepTheMatch | patches/libfprint/syna0082.c:805-850 | adding decodable samples never turns a match into a non-match |
| MatchDecision.DriverMeaning | patches/libfprint/syna0082.c:844-850 | the driver matches if and only if some sample is accepted and some sample is strong or two are accepted |
| MatchDecision.BestIsGreatest | tools/syna0082_matcher.py:174-182 | no score has a greater key than the chosen best |
| MatchDecision.BestIsFirst | tools/syna0082_matcher.py:170-181 | the best score is the first with the lexicographically greatest inliers, ratio and coverage |
| MatchDecision.Thresholds | tools/syna0082_matcher.py:52-59 | accepted: 6 inliers, ratio 0.65, scale from 0.70 to 1.35, coverage 0.015; strong: 8 inliers |
| MatchDecision.ReferenceMeaning | tools/syna0082_matcher.py:186-189 | the reference matches if and only if its best score is accepted, and strong or one of two accepted |
| MatchDecision.RulesCompared | tools/syna0082_matcher.py:178-190 | a reference match implies a driver match; the rules agree if and only if the best score is accepted, or no score is, or none is strong and no two are accepted |
| MatchDecision.RulesDiffer | tools/syna0082_matcher.py:186-189 | two scores on which the driver matches and the reference does not |
| RepeatedRuns.MaximalRepeatedRuns | tools/syna0082_container_map.py:49-85 | reports exactly the runs of at least the minimum length that extend neither way, each once, strictly sorted |
| RepeatedRuns.FindStarts | tools/syna0082_container_map.py:58-68 | the block index yields exactly the starts that comparing all pairs of positions would |
| RepeatedRuns.CoveredByOneRun | tools/syna0082_container_map.py:49-50 | every equal range of at least the minimum length lies inside exactly one reported run of its diagonal |
| RepeatedRuns.RunsInBytes | tools/syna0082_container_map.py:51-85 | the reported runs in terms of the payloads: equal 16-byte stretches behind the four-byte header, extended to neither side |
| RepeatedRuns.RunIsOneRange | tools/syna0082_container_map.py:37-46 | a run is one equal range of bytes from 4 + 16 * block on in both payloads |
| RepeatedRuns.SharedRangeIsReported | tools/syna0082_container_map.py:49-50 | every range of whole stretches two payloads share lies inside a reported run |
| RepeatedRuns.BlocksAreStretches | tools/syna0082_container_map.py:51-52 | a payload's blocks are the 16-byte stretches behind its header, the last perhaps shorter |
| CallerTree.CallerDepths | tools/DumpCallerTree.java:48-67 | ends on every call graph; the map holds exactly the functions within the limit, with shortest distances, inserted once, in non-decreasing depth |
| Provenance.PayloadProvenance | tools/syna0082_driver_inventory.py:78-93 | the longest suffix that occurs, at its first occurrence; none exactly for an empty payload or a last byte that does not occur |
| DescriptorCatalog.ParseCatalog | tools/syna0082_descriptor_catalog.py:101-110 | succeeds exactly when a null pointer comes within the maximum and everything before it parses; one descriptor per pointer before the first null |
| DescriptorCatalog.ParsedIsStored | tools/syna0082_descriptor_catalog.py:77-98 | a parsed descriptor carries the digest of what its reader finds at its place |
| DescriptorCatalog.ParsedExactly | tools/syna0082_descriptor_catalog.py:77-88 | when a record is parsed: 0x50 bytes, 16 zero bytes first, a readable payload with a header |
| DescriptorCatalog.ParsedFields | tools/syna0082_descriptor_catalog.py:81-98 | every field of a parsed descriptor by the bytes of its record |
| DescriptorCatalog.TableExactly | tools/syna0082_descriptor_catalog.py:101-110 | 8-byte addresses one after the other, the record at each, the end at the first null |
| DescriptorCatalog.MatchesInOrder | tools/syna0082_descriptor_catalog.py:119-127 | for one form the matches stand in the order of the descriptors |
| DescriptorCatalog.FormsInOrder | tools/syna0082_descriptor_catalog.py:113-127 | the matches of the whole capture come first, then those without its command byte |
| DescriptorCatalog.MatchPayload | tools/syna0082_descriptor_catalog.py:113-133 | the prefilter by length and digest changes nothing: the result is that of exact comparison alone, for any hash |
| DescriptorCatalog.ExactMatchesMeaning | tools/syna0082_descriptor_catalog.py:113-127 | a pair of form and descriptor is listed if and only if the descriptor's stored payload is the capture in that form |
| PrefixCheck.PaddingExactly | tools/syna0082_container_map.py:135-142 | accepted if and only if the block is 00 01, at least eight FF, 00 and a non-empty tail |
| PrefixCheck.SplitIsUnique | tools/syna0082_container_map.py:135-142 | such a block splits in one way only |
| PrefixCheck.RsaPrefixCheck | tools/syna0082_container_map.py:145-186 | the matches are exactly the interpretations that recover a padded block, each once and in loop order, encoding never overflows, and there are six checks per prefix and usable reading of a key |
| PrefixCheck.MatchExactly | tools/syna0082_container_map.py:147-182 | a match is an interpretation of the 256 bytes behind the header under a key, with exponent 3, 17 or 65537 |
| PrefixCheck.RecoversExactly | tools/syna0082_container_map.py:157-174 | an interpretation recovers a block if and only if the modulus is above 1, the signature below it, and the power leaves a padded block of 256 big-endian bytes |
| PrefixCheck.PowerModulo | tools/syna0082_container_map.py:170-172 | the modular power is the remainder of the power |
| PrefixCheck.BigIsReversedLittle | tools/syna0082_container_map.py:158-162 | the two byte orders read the same bytes from opposite ends |
| PrefixCheck.BelowExactly | tools/syna0082_container_map.py:165-169 | what the counters count for one prefix and one key |
| PrefixCheck.CountersAddUp | tools/syna0082_container_map.py:155-169 | the counters add up over the keys |
| PrefixCheck.BelowOneMore | tools/syna0082_container_map.py:155-169 | and over the payloads |
| PrefixCheck.TwelvePerPair | tools/syna0082_container_map.py:153-165 | the checks are twelve per prefix and key if and only if no key is 0 or 1 in either byte order |
| Transactions.TransactionsOf | tools/syna0082_protocol.py:71-89 | for any records the output is in frame order and a rearrangement of the reference grouping; with strictly increasing frames it is that grouping |
| Transactions.GroupingKeepsRecords | tools/syna0082_protocol.py:71-89 | heads and responses are exactly the records not ignored, each kind in capture order, each transaction of the kind of its head |
| Transactions.GroupedFrames | tools/syna0082_protocol.py:76-84 | with strictly increasing frames each response lies between its own command and the next |
| Transactions.GroupedRecordByRecord | tools/syna0082_protocol.py:71-89 | what each record adds: 0x01 opens a command, 0x81 after one is its response, 0x83 is an interrupt, a control transfer with a request is kept, the rest is ignored |
| Transactions.ResponseGoesToLatest | tools/syna0082_protocol.py:81-82 | a response is added at the end of the latest command's and changes nothing else |
| Transactions.SortIsStable | tools/syna0082_protocol.py:89 | transactions that share a frame keep their order |
| CaptureDiff.DiffCaptures | tools/syna0082_protocol.py:144-159 | one correct report per group, sorted; the occurrences sum to the number of commands |
| CaptureDiff.DifferingOffsets | tools/syna0082_protocol.py:156-157 | comparing with the first payload only finds exactly the offsets at which some two payloads disagree |
| CaptureDiff.GroupsByOpcodeAndLength | tools/syna0082_protocol.py:144-150 | a group holds the payloads with its first byte and its length, in capture order |
| CaptureDiff.ReportOrder | tools/syna0082_protocol.py:152 | reports are ordered by opcode, then by length |
| CaptureDiff.OffsetsExactUnderInjectivity | tools/syna0082_protocol.py:152-158 | without digest collisions the offsets are exact and non-empty if and only if there is more than one variant |
| ImageFrame.ParseImage | probe/syna0082-protocol.c:41-76 | accepts exactly what the Python checker accepts, with the same four values; otherwise names the first failing check and leaves the structure alone |
| ImageFrame.DriverAcceptsExactly | patches/libfprint/syna0082.c:159-183 | the driver accepts exactly the 8082-byte frames the Python checker reads as 56x144 |
| ImageFrame.RecordBytes | tools/syna0082-image-summary.py:43-62 | which byte strings are image records, and their four values, byte by byte |
| ImageFrame.AcceptedFrameBytes | patches/libfprint/syna0082.c:159-183 | the driver accepts the 8082-byte frames that begin 00 00 8c 1f 00 00 38 00 90 00 |
| ImageFrame.SizeProductFits | probe/syna0082-protocol.c:63-67 | the product of the dimensions stays below 2^32 |
| Bytes.LittleEndianReadersAgree | tools/syna0082-image-summary.py:46-49 | the fixed-width readers agree with the general little-endian reader |
| Raster.CopyTransposed | patches/libfprint/syna0082.c:188-191 | the nested copy loop computes the raster comprehension, inside the bounds, for any width and height |
| Raster.RasterAt | tools/syna0082-image-transform.py:24-29 | the pixel at row y and column x is input byte height * x + y |
| Raster.TransposeTwice | tools/syna0082-image-transform.py:24-29 | transposing again with swapped dimensions returns the pixels |
| Raster.EveryPixelUsedOnce | tools/syna0082-image-transform.py:24-29 | every input pixel goes to exactly one place |
| Pgm.RasterReadsPrinted | tools/syna0082-image-transform.py:14-21 | the raster tool reads exactly the printed 56x144 files, pixels unchanged |
| Pgm.PrintedBytes | tools/syna0082-image-summary.py:94-99 | the printed bytes: P5, width and height, 255, each on a line, then the pixels |
| Pgm.DecimalExactly | tools/syna0082-image-summary.py:94-99 | a printed number has no leading zero and is read back |
| Pgm.ReadPgmToken | tools/Syna0082VendorEngineProbe.cs:99-122 | the token loops find the next token past blanks and comments |
| Pgm.ReadPgm | tools/Syna0082VendorEngineProbe.cs:124-142 | the reader's result, or rejection |
| Pgm.TokenStartExactly | tools/Syna0082VendorEngineProbe.cs:99-116 | a token begins at the first byte above 0x20 that is neither a # nor behind one on its line |
| Pgm.TokenEndExactly | tools/Syna0082VendorEngineProbe.cs:118-120 | a token ends before the first blank, control byte or # |
| Pgm.BlankEndExactly | tools/Syna0082VendorEngineProbe.cs:134-135 | the blanks before the pixels end at the first byte above 0x20 |
| Pgm.ParseIntExactly | tools/Syna0082VendorEngineProbe.cs:129-131 | a number is at most one sign, then digits, within 32 bits |
| Pgm.DigitsFromFront | tools/Syna0082VendorEngineProbe.cs:129-131 | each digit is worth ten times the next |
| Pgm.ReadExactly | tools/Syna0082VendorEngineProbe.cs:124-142 | an image comes back if and only if the tokens are P5, its dimensions and 255 and the rest behind the blanks is as long as they say |
| Pgm.VendorReadsPrinted | tools/Syna0082VendorEngineProbe.cs:124-142 | a printed image is read back exactly when its first pixel is above 0x20, and rejected otherwise |

## Left out

- DriverModel.FinishCapture: `capture_count` is a natural number; its wrap-around after 2^32 captures in one activation is not modelled.
- DriverTheorems.HeldFinger: counts release timeouts only; whether the device was silent before such a timeout is stated by the lemmas of DriverRelease.
- DriverRelease.HeldFingerLaw: time is not modelled; that a timeout comes 600 ms after the submission, and that a held finger is reported more often than that, is left to the USB stack and the sensor. Which of two outstanding interrupts gets an event is left open.
- Pgm.ReadPgm: the exceptions of the C# reader are not told apart.
- DescriptorCatalog.ParsedIsStored: the exceptions of the parser are not told apart.
- RepeatedRuns.MaximalRepeatedRuns: the hash printed with a run is not part of it.
- CallerTree.CallerDepths: the checks of the script's arguments and the decompiler output are not part of it.
- Gallery.MatchPrint: the score of two decoded feature sets is an arbitrary function of them; keypoint matching, the affine fit and its geometry are not modelled, and rounding of the thresholds is not.
- Gallery.Extract: resizing, contrast normalization and keypoint detection are an arbitrary detector output with as many descriptor rows as keypoints.
- The part of the framework that is not in patch 0002 is a contract, not code.
- `dev_close`, which frees the two blobs while a wake timer may still refer to the device, is not part of this model: a run ends with the session still open.
- USB transfers, timers, files, environment variables and logging appear only as events, results or parameters.
- Hash functions are parameters.
- The field builder of the 0x39 message is a constant function; the vendor's record layout in the C# probe is left out.
- Counting blocks and headers, classifying security keys, validating captures against the schema and coverage reports are left out: single comprehensions.
- The probe programs, the provisioning and correlation tools, the shell and PowerShell scripts and the packaging are left out.
