# Verified models of the UPS bridge firmware

A Dafny model of the parts of the firmware where several tasks, wrapping clocks, bounded buffers or
byte formats meet, with proofs of what they promise. Each module follows one component of the sources:

- `ControlPipe`, `ControlFreshness`, `ControlRequests`, `ControlDevice`: the shared control transfer of the USB HID host driver.
  Requesters, the completion callback (its two statements apart), timeouts and the removal of the device
  interleave freely; a submission number stands for the ownership of the buffer. The second module holds the
  results about whole exchanges, the third what requests send and return, the fourth the driver's own fields.
- `InterfaceLifecycle`, `InterfaceCalls`: devices and interfaces of the same driver: attach, failed attach, open,
  start, stop, the two-phase close with its re-entrant callback, and disconnect; what holds over all runs, and
  exactly what each call does after any of them.
- `NutTokens`, `NutSpellings`, `NutVariables`, `NutLookup`, `NutSessions`, `NutAnswers`: the NUT server. Splitting
  and encoding of protocol words, the lookup of GET VAR name by name and against the listing of LIST VAR, the eight
  sessions that gate writes to the UPS, and the answer to each line.
- `TokenBucket`, `Fanout`, `LogQueue`, `SyslogFormat`, `SyslogNames`, `SyslogOutput`, `RemoteLogging`: the way of a log line
  from the logger through the ring, the bounded queue, the filters and the outputs to a syslog datagram,
  and the composition of all of it.
- `AuthCodecs`: the stored form of the web credentials and of the persistent sessions.
- `AutoShutdown`: the automatic shutdown, once for each low-battery event.
- `Prelude`: optional values, C strings, numbers modulo 2^32.

State that the sources change in place is a class here, with the same fields; each of its methods is
proved equal to one step of a function on values, and the theorems are about all runs of those steps.
What the network, the USB stack, NVS, the clock and the scheduler do is a parameter of every step.

`dafny verify dfyconfig.toml` checks the whole project.

## Results that differ from what one may expect

- `ControlFreshness.TornCallbackReturnsStaleData`: when the completion callback is interrupted between clearing
  the flag and giving the semaphore, the next request can return ESP_OK with the data of the one
  before, and cuts the byte count of a buffer the stack owns. `ControlPipe.WokenByOwnCompletion` gives the exact
  condition; with the callback as one step no request is ever fooled.
- `NutVariables.ListingIsTheGraphOfTheLookup`: LIST VAR and GET VAR agree if and only if every key the UPS
  data holds is in lower case and none of the names the server makes itself. They do not on a three-phase
  UPS (`NutVariables.ThreePhaseKeyBreaks`): the table of variables has keys such as input.L1-N.voltage and
  ups.L1.power (lib/USBHostUPS/src/NutTable.h, lines 1920 and 1798), which are stored as they are; LIST VAR
  lists them, and GET VAR, which lowers the name, answers VAR-NOT-SUPPORTED.
- `SyslogFormat.AppNameIsSplit`: the filter of the tag keeps '-' and '_', which section 4.1.3 of RFC 3164 does not
  have in a TAG. The only name the firmware gives itself is esp32-nut (src/network/syslog_output.cpp, line 7), so a
  receiver by that section reads every message as from esp32, with -nut at the front of the text.
- `SyslogFormat.ParseUndoesFormat`, `SyslogFormat.LeapSecondIsNotRead`: the second is clamped to 60, and the day to
  31 whatever the month. Neither RFC has a second 60 or a day its month does not have. A strict receiver of RFC 5424
  then refuses the message, and one of RFC 3164 takes everything after the PRI for text, with the month as its tag.
  `ParseUndoesFormat` says what is read in every case, and exactly when it is what was meant.
- `TokenBucket.RefillAgreesExactly`, `TokenBucket.SilenceOfWholeWrapsIsUnseen`: lines below the minimum level do
  not look at the clock, so a silence of whole clock wraps between lines at or above it is not credited.
  The upper bound on the rate needs no such condition, and a missed refill never lets more lines through
  (`TokenBucket.LazyNeverSendsMore`).
- `Fanout.HoldExactly`: an output that stays not ready holds lines back again for half of every clock wrap,
  from 2^31 ms after it was enabled.
- `Fanout.EveryRecordIsCountedOnce`: `sent` and `failed` also count the notice the syslog output sends to a
  server it is about to leave, which the fanout does not hand out.
- `NutSessions.PasswordAloneAuthenticates`: with an empty configured name PASSWORD alone sets the flag of a session,
  which then is not needed for anything: without a name nobody is asked for credentials.
- `AuthCodecs.LoadUndoesSave`, `AuthCodecs.LoadUndoesSaveSessions`: saving does not check the iteration count, nor
  the number of sessions; loading then gives nothing back.

## Model

| member | source | states |
|---|---|---|
| ControlPipe.OwnedBufferIsLeftAlone | lib/usb_host_hid/hid_host.c:1055-1166 | In every interleaving, while the USB stack owns the buffer the in-flight flag is set, no task stands between the check of the flag and a submission, and no next step writes a setup packet, resubmits, reallocates or frees it; only the callback ends the ownership; apart from the answer itself nothing in the buffer changes but the number of bytes received, and that only by a request woken by a stale token |
| ControlPipe.RefusedExactlyWhileInFlight | lib/usb_host_hid/hid_host.c:1083-1093 | A request at the lock is refused with INVALID_STATE exactly while an earlier transfer has not been handed back |
| ControlPipe.RemovalLeaksInsteadOfFreeing | lib/usb_host_hid/hid_host.c:1496-1530 | A removal leaks the context exactly when the stack still owns the buffer, and a leaked context is never freed later |
| ControlPipe.NothingInProgressOnFreedContext | lib/usb_host_hid/hid_host.c:1530-1551 | When the transfer or context has been freed, nobody owns the buffer, no callback runs and no task holds the lock |
| ControlPipe.WokenByOwnCompletion | lib/usb_host_hid/hid_host.c:1115-1147 | A request that returns ESP_OK was woken; by its own completion if and only if no callback stood between its statements at the drain |
| ControlPipe.CleanWakeReturnsOwnAnswer | lib/usb_host_hid/hid_host.c:1142-1170 | A request woken by its own completion returns that answer: its error, or a GET's data cut to wLength |
| ControlFreshness.AtomicCallbacksMakeEveryReturnFresh | lib/usb_host_hid/hid_host.c:1055-1064 | With the callback as one step every ESP_OK is of the request's own completed submission, never of a token left by a timeout |
| ControlFreshness.TornCallbackReturnsStaleData | lib/usb_host_hid/hid_host.c:1062-1063 | A schedule in which a request returns ESP_OK with the data of the one before, the stack owning the buffer again and its byte count overwritten |
| ControlFreshness.FreePipeAccepts | lib/usb_host_hid/hid_host.c:1184-1228 | A free pipe takes a SET, GET or descriptor request up to its submission, the last one with a new buffer when the old is too small, so the safety results are not met by refusing everything |
| ControlFreshness.CallbackHealsThePipe | lib/usb_host_hid/hid_host.c:1055-1064 | After a timeout the late callback alone makes the pipe usable again |
| ControlRequests.SubmittedBufferHoldsRequest | lib/usb_host_hid/hid_host.c:1318-1348 | In every interleaving, while a submitted transfer has no answer the buffer holds the setup packet of the waiting task's request, its length, and byte for byte the data of a SET |
| ControlRequests.SetupLeavesTheRest | lib/usb_host_hid/hid_host.c:1333-1344 | Writing the setup packet and the data leaves the bytes beyond them and all other fields as they were |
| ControlRequests.BeginExactly | lib/usb_host_hid/hid_host.c:1322-1327 | Without a buffer a request is refused with INVALID_ARG, a SET or GET too long for it with INVALID_SIZE, anything else goes on to the lock |
| ControlRequests.LockExactly | lib/usb_host_hid/hid_host.c:1083-1087 | A waiting task gets the device if and only if nobody has it, and times out only while somebody does |
| ControlRequests.FreesExactly | lib/usb_host_hid/hid_host.c:1198-1207 | The buffer is freed for a descriptor request it cannot take, and for nothing else |
| ControlRequests.AllocatesExactly | lib/usb_host_hid/hid_host.c:1207-1215 | The new buffer takes exactly the request; without memory the request fails and there is none |
| ControlRequests.WritesExactly | lib/usb_host_hid/hid_host.c:1333-1344 | The setup packet is written as soon as the buffer takes the request |
| ControlRequests.InstalledDevice | lib/usb_host_hid/hid_host.c:1436-1490 | A device that was just installed has a buffer of 512 bytes and nothing in progress |
| ControlRequests.LeavesBecause | lib/usb_host_hid/hid_host.c:1083-1170 | Which event makes a request return, each with its one error, and which of them clears the flag |
| ControlRequests.UnlockExactly | lib/usb_host_hid/hid_host.c:1350-1352 | Unlocking hands the result out and the device back |
| ControlRequests.FinishedCount | lib/usb_host_hid/hid_host.c:1160-1164 | The byte count a request woken by its own completion leaves: the answer's, cut to what was asked, for a GET without the setup packet |
| ControlRequests.RemovalTakes | lib/usb_host_hid/hid_host.c:1496-1503 | The removal takes the device when nobody has it and no callback runs |
| ControlRequests.RemovalDecides | lib/usb_host_hid/hid_host.c:1505-1528 | Once the interfaces are detached it leaks a context in flight, and no other |
| ControlRequests.RemovalEnds | lib/usb_host_hid/hid_host.c:1530-1551 | It frees the buffer of a context not in flight, closes the device and frees the context; a call that fails stops it |
| ControlRequests.FreeDeviceGoes | lib/usb_host_hid/hid_host.c:1496-1551 | A device nobody uses, with nothing in flight, is removed and freed |
| ControlDevice.Device.Lock | lib/usb_host_hid/hid_host.c:1034-1093 | Taking the device and refusing while in flight change the fields exactly as the model's step |
| ControlDevice.Device.Prepare | lib/usb_host_hid/hid_host.c:1194-1228 | Growing the buffer and writing the setup packet, with the out-of-memory path |
| ControlDevice.Device.Transfer | lib/usb_host_hid/hid_host.c:1110-1142 | Draining, arming, submitting, waiting and timing out |
| ControlDevice.Device.Conclude | lib/usb_host_hid/hid_host.c:1144-1169 | Judging the answer, cutting the byte count and releasing the device |
| ControlDevice.Device.Stack | lib/usb_host_hid/hid_host.c:1055-1064 | What the USB stack and the callback do to the buffer, the flag and the semaphore |
| ControlDevice.Device.Uninstall | lib/usb_host_hid/hid_host.c:1496-1551 | The steps of the removal |
| ControlDevice.Device.Execute | lib/usb_host_hid/hid_host.c:1055-1142 | From any reachable state, any schedule executed on the fields ends in the model's state; then the flag is set while the buffer is owned, a freed buffer or context has no owner, callback or user, and a leaked context stays |
| InterfaceLifecycle.NoFreedParent | lib/usb_host_hid/hid_host.c:541-626 | Over all runs no listed interface has a freed parent; one without a parent waits for the user's close |
| InterfaceLifecycle.ListedInterfaceLife | lib/usb_host_hid/hid_host.c:840-984 | in_xfer is set exactly in READY and ACTIVE, a report descriptor is held only there, at most one successful open and one DISCONNECTED |
| InterfaceLifecycle.ClosesUntilRemoval | lib/usb_host_hid/hid_host.c:1741-1845 | An interface leaves the list after exactly two successful closes with a callback installed and one without |
| InterfaceLifecycle.HandlesAreUnique | lib/usb_host_hid/hid_host.c:261-278 | A handle names at most one listed interface |
| InterfaceLifecycle.DisconnectReleasesInterfaces | lib/usb_host_hid/hid_host.c:578-626 | After a disconnect, whatever fails, no listed interface points to the device; those it had wait for the user without transfer |
| InterfaceLifecycle.AttachOk | lib/usb_host_hid/hid_host.c:516-576 | A failed attach leaves the list of interfaces as it was and keeps every invariant |
| InterfaceLifecycle.HidHost.UninstallDevice | lib/usb_host_hid/hid_host.c:1496-1551 | The removal of a device in place, with its failing calls |
| InterfaceLifecycle.HidHost.InitAttempt | lib/usb_host_hid/hid_host.c:516-576 | An attach in place, including the cleanup of a failed one |
| InterfaceLifecycle.HidHost.CloseLocked | lib/usb_host_hid/hid_host.c:1741-1845 | One close in place: failed, waiting for the user or removed |
| InterfaceLifecycle.HidHost.Disconnected | lib/usb_host_hid/hid_host.c:578-626 | The disconnect loop over the listed interfaces, then the removal |
| InterfaceLifecycle.HidHost.Call | lib/usb_host_hid/hid_host.c:1682-2032 | Open, start, stop and report descriptor requests in place |
| InterfaceLifecycle.HidHost.Execute | lib/usb_host_hid/hid_host.c:516-626 | Any run on the lists ends in the model's state |
| InterfaceCalls.OpenExactly | lib/usb_host_hid/hid_host.c:1682-1730 | After any run an open makes a listed interface READY with transfer and callback if and only if it was IDLE, its protocol is known, and claim and allocation succeed; otherwise nothing changes |
| InterfaceCalls.StartExactly | lib/usb_host_hid/hid_host.c:1979-2014 | A start makes it ACTIVE if and only if it was READY and the submission succeeds |
| InterfaceCalls.StopExactly | lib/usb_host_hid/hid_host.c:2016-2032 | A stop makes it READY if and only if it was ACTIVE and halt and flush succeed |
| InterfaceCalls.DescribeExactly | lib/usb_host_hid/hid_host.c:2124-2147 | A report descriptor is held if and only if it was, or the interface is open and the request succeeds |
| InterfaceCalls.CloseExactly | lib/usb_host_hid/hid_host.c:1741-1845 | When a close fails and what it leaves, when the interface waits for the user, and when it leaves the list |
| InterfaceCalls.AttachExactly | lib/usb_host_hid/hid_host.c:516-574 | A successful attach adds the device under a new identity and each of its interfaces, idle |
| InterfaceCalls.FailedAttachExactly | lib/usb_host_hid/hid_host.c:551-571 | A failed list leaves interfaces and device as before, unless the removal fails half-way |
| InterfaceCalls.DisconnectExactly | lib/usb_host_hid/hid_host.c:578-626 | After any run, exactly which interfaces a disconnect leaves waiting, removes or does not touch, and when the device is freed, leaked or stays |
| InterfaceCalls.UnknownHandle | lib/usb_host_hid/hid_host.c:261-278 | A handle that is not listed changes nothing |
| InterfaceCalls.UnknownDevice | lib/usb_host_hid/hid_host.c:578-582 | Nor does the disconnect of a device that is not |
| InterfaceCalls.PluggedInterfaceRuns | lib/usb_host_hid/hid_host.c:516-574 | After an attach every interface of the device can be opened and started, and is then ACTIVE |
| NutTokens.EncodeValue | lib/NUTServer/src/NUTServer.cpp:384-392 | The encoder's loop is the function the round trips are about |
| NutTokens.SplitTokens | lib/NUTServer/src/NUTServer.cpp:397-425 | The splitter's loop is the function the round trips are about |
| NutTokens.IsValidUpsName | lib/NUTServer/src/NUTServer.cpp:255-263 | Accepts exactly the non-empty printable names without quote, backslash, hash and at sign |
| NutTokens.SplitUndoesJoin | lib/NUTServer/src/NUTServer.cpp:384-425 | Any list of words quoted, joined by spaces and split gives the list back, empty words included, each up to its first NUL |
| NutTokens.SplitGivesWordsBack | lib/NUTServer/src/NUTServer.cpp:384-425 | For words without a NUL it is the same list |
| NutTokens.SplitReadsVarLine | lib/NUTServer/src/NUTServer.cpp:932-932 | A VAR reply line splits into VAR, the UPS name, the variable and the raw value, for any value |
| NutTokens.SplitReadsPlainWords | lib/NUTServer/src/NUTServer.cpp:397-425 | A request of plain words arrives word by word |
| NutSpellings.SplitReadsAnySpelling | lib/NUTServer/src/NUTServer.cpp:397-425 | Any list of words written bare, with backslashes, quoted or in parts, with any spaces around them, splits into exactly those words |
| NutSpellings.UnfinishedLines | lib/NUTServer/src/NUTServer.cpp:401-424 | A backslash at the end is dropped; a quote that is not closed ends with the line |
| NutSpellings.EncodeExactly | lib/NUTServer/src/NUTServer.cpp:384-392 | A backslash goes before hash, backslash and quote and before nothing else, up to the NUL |
| NutSpellings.NamesExactly | lib/NUTServer/src/NUTServer.cpp:255-263 | The characters a UPS name may have, one by one |
| NutVariables.ListingIsTheGraphOfTheLookup | lib/NUTServer/src/NUTServer.cpp:195-231 | LIST VAR is exactly the graph of the lookup (no name twice, same values, nothing missing) if and only if the UPS keys are lower case and not names the server makes |
| NutVariables.ThreePhaseKeyBreaks | lib/NUTServer/src/NUTServer.cpp:631-666 | With the key input.L1-N.voltage the listing has the entry, the lookup of its lower-case name fails and the two disagree |
| NutVariables.ListedLineReadsAsLookup | lib/NUTServer/src/NUTServer.cpp:631-666 | A client that splits a listed line reads the name and what GET VAR answers to it |
| NutVariables.ListVar | lib/NUTServer/src/NUTServer.cpp:631-666 | The loops of LIST VAR produce the listing the theorem is about |
| NutLookup.DeviceNamesAreTheUpsOnes | lib/NUTServer/src/NUTServer.cpp:88-99 | device.mfr, device.model and device.serial answer their own override, else the override of ups.mfr, ups.model and ups.serial, else what the UPS reports there, else nothing |
| NutLookup.MadeNames | lib/NUTServer/src/NUTServer.cpp:195-206 | ups.status answers the status, device.type answers ups, and names under ups.status. nothing |
| NutLookup.ParameterAnswers | lib/NUTServer/src/NUTServer.cpp:207-211 | driver.parameter.override. and a name answers the override of that name |
| NutLookup.OtherNamesAnswer | lib/NUTServer/src/NUTServer.cpp:212-231 | Every other name answers its override, else what the UPS reports under it, else nothing |
| NutLookup.LowerLetters | lib/NUTServer/src/NUTServer.cpp:656-656 | Names are lowered letter by letter |
| NutLookup.ListedNamesAreAsSaved | lib/NUTServer/src/NUTServer.cpp:631-666 | Every listed name is spelled as the UPS data, the overrides or the server itself have it |
| NutSessions.OnlyGrantedSessionsReachTheUps | lib/NUTServer/src/NUTServer.cpp:498-562 | With credentials configured, a command or a write reaches the UPS only on a slot whose current session got OK to PASSWORD with the configured name and password before |
| NutSessions.AuthenticatedExactlyWhenGranted | lib/NUTServer/src/NUTServer.cpp:534-562 | A slot's flag is set exactly while its current session has that grant |
| NutSessions.PasswordAcceptedExactly | lib/NUTServer/src/NUTServer.cpp:545-562 | PASSWORD gets OK exactly for the configured password after the configured name |
| NutSessions.AuthenticatedSentBoth | lib/NUTServer/src/NUTServer.cpp:1025-1034 | Authenticated implies PASSWORD and, unless the configured name is empty, USERNAME were sent on the current session |
| NutSessions.PasswordAloneAuthenticates | lib/NUTServer/src/NUTServer.cpp:545-562 | With an empty configured name a first line PASSWORD sets the flag without any USERNAME, for every password; no credentials are asked for then |
| NutSessions.EachSlotIsAlone | lib/NUTServer/src/NUTServer.cpp:281-592 | Over all runs a slot's session and its facts (replies, commands, writes) are those of a slot that shares the server with nobody and gets only what reached it |
| NutSessions.InstcmdReachesExactly | lib/NUTServer/src/NUTServer.cpp:791-832 | After any run, a line runs a command on the UPS if and only if it is an INSTCMD for this UPS and the facts entitle its slot |
| NutSessions.SetVarReachesExactly | lib/NUTServer/src/NUTServer.cpp:1055-1136 | After any run, a line writes a variable if and only if it is a SET VAR that passes every check and the facts entitle its slot |
| NutSessions.OkExactlyWhenDone | lib/NUTServer/src/NUTServer.cpp:564-853 | After any run, LOGIN, INSTCMD and SET VAR get OK if and only if the request is for this UPS, was carried out without tracking, and the facts entitle the slot |
| NutAnswers.RemembersWhatWasSent | lib/NUTServer/src/NUTServer.cpp:534-562 | A slot's flags are set exactly while its session sent USERNAME, sent PASSWORD, and is open |
| NutAnswers.ConnectExactly | lib/NUTServer/src/NUTServer.cpp:281-329 | A new client gets the first of eight slots that is not open or whose client is gone, with a fresh session |
| NutAnswers.NoneFree | lib/NUTServer/src/NUTServer.cpp:281-329 | Without a free slot a new client changes nothing |
| NutAnswers.LogoutCloses | lib/NUTServer/src/NUTServer.cpp:589-593 | A line closes its slot if and only if its first word is LOGOUT in any case, after OK Goodbye |
| NutAnswers.UsernameSends | lib/NUTServer/src/NUTServer.cpp:534-543 | A line sends a name if and only if it is USERNAME with an argument |
| NutAnswers.PasswordSends | lib/NUTServer/src/NUTServer.cpp:545-562 | A line sends a password if and only if it is PASSWORD with an argument, and gets OK or ACCESS-DENIED by the last name and the configured pair |
| NutAnswers.MissingFirst | lib/NUTServer/src/NUTServer.cpp:509-525 | With credentials configured LOGIN, SET and INSTCMD first ask for the name, then for the password |
| NutAnswers.LoginAnswers | lib/NUTServer/src/NUTServer.cpp:564-587 | The one answer to LOGIN for each line, grant and name |
| NutAnswers.InstcmdAnswers | lib/NUTServer/src/NUTServer.cpp:791-832 | The one answer to INSTCMD, and that the command runs once |
| NutAnswers.SetVarAnswers | lib/NUTServer/src/NUTServer.cpp:1055-1136 | SET VAR is refused for the first thing that is wrong, or writes the variable once |
| NutAnswers.TrackingAnswers | lib/NUTServer/src/NUTServer.cpp:854-872 | SET TRACKING ON and OFF switch the tracking of the session; any other SET is refused |
| NutAnswers.OthersKeepTracking | lib/NUTServer/src/NUTServer.cpp:498-592 | No line but SET TRACKING and LOGOUT changes the tracking of a session |
| NutAnswers.OtherAnswers | lib/NUTServer/src/NUTServer.cpp:524-532 | LIST, GET, VER and NETVER only read; other words are unknown commands |
| NutAnswers.NoWords | lib/NUTServer/src/NUTServer.cpp:498-502 | A line without words is not answered |
| NutSessions.UpperLetters | lib/NUTServer/src/NUTServer.cpp:504-505 | The case of a command is folded letter by letter |
| NutSessions.NutServer.OpenSession | lib/NUTServer/src/NUTServer.cpp:281-329 | The first slot without a live client starts a fresh session, or none is free |
| NutSessions.NutServer.CloseSession | lib/NUTServer/src/NUTServer.cpp:355-377 | The slot's session is forgotten; a bad slot changes nothing |
| NutSessions.NutServer.MissingCredentials | lib/NUTServer/src/NUTServer.cpp:1028-1034 | Something is missing exactly when credentials are configured and one of the two was not sent |
| NutSessions.NutServer.SetVar | lib/NUTServer/src/NUTServer.cpp:1055-1136 | The checks of SET VAR in their order, and the write |
| NutSessions.NutServer.ProcessCommand | lib/NUTServer/src/NUTServer.cpp:498-592 | One line changes the slot and reaches the UPS as the model's step |
| TokenBucket.AverageRate | lib/LogCore/src/LogOutputFilter.h:27-75 | In any window of a run since a configuration at most max(20, 4 * rate) + rate * T / 1000 lines pass, rate being kept from 1 to 100, however often the 32-bit clock wrapped |
| TokenBucket.LazyIsTicking | lib/LogCore/src/LogOutputFilter.h:42-75 | The lazy bucket decides every line as one that adds rate milli-tokens each millisecond and is cut each time, when the gaps are under a clock wrap |
| TokenBucket.RefillAgreesExactly | lib/LogCore/src/LogOutputFilter.h:63-75 | One lazy refill agrees with the ticking bucket if and only if the gap is under 2^32 ms or the bucket fills anyway |
| TokenBucket.TokensAgreeExactly | lib/LogCore/src/LogOutputFilter.h:42-75 | Over any run the two buckets hold the same tokens at every line if and only if each gap is short or fills the bucket by what is seen of it |
| TokenBucket.HarmlessDecides | lib/LogCore/src/LogOutputFilter.h:42-51 | Under that condition they decide every line alike |
| TokenBucket.LazyNeverSendsMore | lib/LogCore/src/LogOutputFilter.h:42-75 | In every run, however long the gaps, the lazy bucket lets through no more lines than the ticking one |
| TokenBucket.SilenceOfWholeWrapsIsUnseen | lib/LogCore/src/LogOutputFilter.h:69-74 | After a burst, a line whole clock wraps later is refused although the ticking bucket is full |
| TokenBucket.BurstPasses | lib/LogCore/src/LogOutputFilter.h:27-34 | Right after a configuration exactly four seconds of traffic, at least 20 lines, pass at once |
| TokenBucket.BelowLevelExactly | lib/LogCore/src/LogOutputFilter.h:42-45 | A line is dropped for its level, in any run, exactly when INFO, WARN, ERROR puts it below the configured one |
| TokenBucket.SuppressedIsRefusals | lib/LogCore/src/LogOutputFilter.h:42-58 | Over any run the filter holds the number of lines refused since it was last asked, modulo 2^32 |
| TokenBucket.Filter.Configure | lib/LogCore/src/LogOutputFilter.h:27-34 | A full bucket at the clamped rate; the refused lines stay counted |
| TokenBucket.Filter.CheckLine | lib/LogCore/src/LogOutputFilter.h:42-51 | The decision and the new fields, within 32 bits |
| TokenBucket.Filter.AddTokens | lib/LogCore/src/LogOutputFilter.h:71-74 | The 64-bit sum neither overflows nor exceeds the cap |
| TokenBucket.Filter.TakeSuppressed | lib/LogCore/src/LogOutputFilter.h:54-58 | The count is given out once |
| Fanout.WireIsToldByTheFates | lib/LogCore/src/LogFanout.h:55-88 | What reaches the transport is exactly the accepted records in order, each after one summary of the records refused since the previous one; the rest is pending, across reconfigurations |
| Fanout.EveryRecordIsCountedOnce | lib/LogCore/src/LogFanout.h:55-103 | Each record offered is counted in exactly one of not ready, below level, rate limited and line on the wire; sent and failed count lines, summaries and farewells |
| Fanout.RefusalsAreReportedOrPending | lib/LogCore/src/LogFanout.h:72-85 | rate_limited is the sum of the counts in the summaries and the pending count, modulo 2^32 |
| Fanout.RefusalsAreExact | lib/LogCore/src/LogFanout.h:72-85 | Below 2^32 refusals the three numbers are equal |
| Fanout.OwnLinesStayLocal | lib/LogCore/src/LogFanout.h:91-95 | Lines an output writes about itself never come back to it |
| Fanout.OwnLinesLeaveNoTrace | lib/LogCore/src/LogFanout.h:58-62 | With and without the lines an output writes about itself, any run ends with the same counters, filter and wire |
| Fanout.HandsWhatItAccepts | lib/LogCore/src/LogFanout.h:58-87 | Over any run the records on the wire are, in order, those that are notices or foreign lines of the level with a token left, offered while the output was enabled and ready |
| Fanout.NotReadyOnlyCounts | lib/LogCore/src/LogFanout.h:63-66 | While an enabled output is not ready any offers only raise not_ready, by the records that are not its own lines, modulo 2^32 |
| Fanout.SettingsAreTheLast | lib/LogCore/src/LogFanout.h:55-67 | After any run the output is enabled, ready, and filters as the last setting says, the rate kept from 1 to 100 |
| Fanout.WireRate | lib/LogCore/src/LogFanout.h:68-87 | In any window without a new configuration an output lets at most max(20, 4 * rate) + rate * T / 1000 lines through its rate limit |
| Fanout.HoldIsReal | lib/LogCore/src/LogFanout.h:44-53 | Within 2^31 ms of the enabling the hold is the real 60 seconds, also when the enabling is after now |
| Fanout.OutputBox.Take | lib/LogCore/src/LogFanout.h:57-87 | One output's turn in place, counters wrapping |
| Fanout.LogFanout.DeliverAll | lib/LogCore/src/LogFanout.h:55-88 | Each output takes the record by itself, once for each time it was added, whatever the others do |
| Fanout.OneTurn | lib/LogCore/src/LogFanout.h:55-58 | An output that was added once takes it exactly once |
| Fanout.LogFanout.Add | lib/LogCore/src/LogFanout.h:32-36 | At most four outputs, in order; none is refused for being there already, and null is refused |
| Fanout.LogFanout.ShouldHold | lib/LogCore/src/LogFanout.h:44-53 | True exactly when some enabled output holds |
| LogQueue.LinesAreConserved | src/core/log_dispatcher.cpp:24-35 | The lines written are those handed over, then those in the queue (at most 40), in order, and the drops |
| LogQueue.LossesAreReported | src/core/log_dispatcher.cpp:46-58 | The counts of the "lines lost" records and the unreported difference are the drops, modulo 2^32, and no record counts none |
| LogQueue.LossesAreExact | src/core/log_dispatcher.cpp:46-58 | Below 2^32 drops they are the drops |
| LogQueue.RefusedExactlyWhenFull | src/core/log_dispatcher.cpp:24-35 | A line is dropped exactly while 40 kept lines were not handed over |
| LogQueue.PageIdsAreConsecutive | src/core/app_logger.cpp:43-51 | The ids on the page are consecutive and distinct, and the positions of the lines below the wrap |
| LogQueue.PageIsTheLastFifty | src/core/app_logger.cpp:67-82 | The page has the last 50 lines, or all of fewer, each in its place |
| LogQueue.RecordExactly | src/core/log_dispatcher.cpp:24-31 | A record has the line's time, notice, level by its name in any case, and at most 239 of its characters |
| LogQueue.LogDispatcher.SubmitLine | src/core/log_dispatcher.cpp:24-35 | A line becomes a record cut to the buffer; a full queue drops and counts it |
| LogQueue.LogDispatcher.ReportDrops | src/core/log_dispatcher.cpp:46-58 | The lost lines since the last report, if any |
| LogQueue.LogDispatcher.ReceiveLine | src/core/log_dispatcher.cpp:65-67 | The oldest line in the queue |
| LogQueue.AppLogger.Write | src/core/app_logger.cpp:35-55 | The line is in the ring under the next id and, since the forwarder was set, in the queue |
| LogQueue.AppLogger.Read | src/core/app_logger.cpp:67-82 | The last 50 lines, oldest first, for any number of lines |
| SyslogFormat.ParseUndoesFormat | lib/LogCore/src/SyslogFormat.cpp:74-130 | What a parser of RFC 5424 or RFC 3164 (with the ranges of their time fields, and a TAG of alphanumeric characters) reads, at every capacity the header fits in, for all inputs; it is the PRI, time fields, host, tag, ids and message that were formatted if and only if the time has a second below 60 and a day of its month and, for RFC 3164, the filtered tag is alphanumeric; what is read has the facility and the severity of the input, user and informational for unknown codes; the header always fits in 151 characters |
| SyslogFormat.AppNameIsSplit | lib/LogCore/src/SyslogFormat.cpp:60-63 | With the firmware's own name esp32-nut every message of RFC 3164 is read as TAG esp32 and a CONTENT that begins with -nut |
| SyslogFormat.ShortMessageIsReadWhole | lib/LogCore/src/SyslogFormat.cpp:117-129 | A message that leaves 152 characters of the buffer, as every queued line does, is never cut: its whole text is read |
| SyslogFormat.LeapSecondIsNotRead | lib/LogCore/src/SyslogFormat.cpp:69-101 | At a second 60 every line is printed; RFC 5424 refuses it, RFC 3164 reads no time and no host and takes the month for the TAG |
| SyslogFormat.ClampIsNearest | lib/LogCore/src/SyslogFormat.cpp:69-72 | A field out of its range is printed as the nearest value in it |
| SyslogFormat.FormatSyslogSeverity | lib/LogCore/src/SyslogFormat.cpp:74-130 | For any capacity the buffer holds the formatted message, ended by a NUL within it |
| SyslogFormat.CopyToken | lib/LogCore/src/SyslogFormat.cpp:42-52 | The first characters kept, as far as they fit, or "-", ended by a NUL, for any buffer |
| SyslogFormat.CopyMessage | lib/LogCore/src/SyslogFormat.cpp:118-123 | The blanked message as far as it fits |
| SyslogNames.HostExactly | lib/LogCore/src/SyslogFormat.cpp:86-88 | The host is made of the printable ASCII characters but space, at most 63, or is a dash |
| SyslogNames.AppExactly | lib/LogCore/src/SyslogFormat.cpp:89-90 | The application of RFC 5424 is made of the same, at most 48 |
| SyslogNames.TagExactly | lib/LogCore/src/SyslogFormat.cpp:102-103 | The tag of RFC 3164 is made of letters, digits, dash and underscore, at most 32 |
| SyslogNames.TextExactly | lib/LogCore/src/SyslogFormat.cpp:117-128 | The text is the message up to its NUL, control characters as spaces, cut to the room and without the spaces at its end, and nothing else is left out |
| SyslogOutput.OneWarningForEachPeriod | src/network/syslog_output.cpp:175-196 | One warning for each maximal run of failed deliveries between settings |
| SyslogOutput.DeliveredExactly | src/network/syslog_output.cpp:79-87 | A datagram is delivered exactly when one of its allowed tries is taken; a delivery pauses at most 200 ms |
| SyslogOutput.TriesExactly | src/network/syslog_output.cpp:79-87 | Which try is taken and the wait before it: 0, 20, 80 or 200 ms, and a single try while failing |
| SyslogOutput.FarewellCosts | src/network/syslog_output.cpp:98-111 | A farewell has the same tries and pauses and changes neither the flag nor the warnings |
| SyslogOutput.DeadServerPausesOnce | src/network/syslog_output.cpp:79-87 | A dead server costs 200 ms for the first line and one try without pause for each other |
| SyslogOutput.Sender.SendDatagram | src/network/syslog_output.cpp:79-87 | The retry loop, its tries and its pauses |
| SyslogOutput.Sender.DeliverRecord | src/network/syslog_output.cpp:175-196 | The failure flag and the warning of one delivery |
| SyslogOutput.Sender.SendNow | src/network/syslog_output.cpp:98-111 | The farewell changes the counters and not the failure flag |
| SyslogOutput.Sender.ApplySettings | src/network/syslog_output.cpp:50-72 | New settings start outside a failure period |
| RemoteLogging.DrainingEnds | src/core/log_dispatcher.cpp:41-69 | Once nothing else logs, at most 82 rounds that are not held empty the queue and report every drop, whatever the network does |
| RemoteLogging.DrainingEndsInTime | src/core/log_dispatcher.cpp:60-67 | Each round with the network up, and each one from 60 s after the output was enabled until 2^31 ms after it, counts as one of those 82 |
| RemoteLogging.RoundShrinks | src/core/log_dispatcher.cpp:41-69 | No round adds work, and one that is not held takes some off |
| RemoteLogging.AtMostOneWarning | src/network/syslog_output.cpp:189-194 | A delivered record brings at most one own line, and an own line brings none |
| RemoteLogging.DeliveryExactly | src/network/syslog_output.cpp:175-196 | What one record changes: the output, the failure flag by the last answer, and one queued warning exactly when a failure period begins |
| RemoteLogging.RoundLooks | src/core/log_dispatcher.cpp:41-64 | A round that takes no line leaves the output as ready as the network was when it looked |
| RemoteLogging.OwnTexts | src/core/log_dispatcher.cpp:46-58 | The texts and levels of the warning and of the report of lost lines |
| RemoteLogging.QuietStaysQuiet | src/core/log_dispatcher.cpp:41-69 | With nothing left to do nothing more happens |
| RemoteLogging.AnswersArePeriods | src/network/syslog_output.cpp:184-195 | The own lines of the composition are the failure periods of the sender |
| RemoteLogging.LogTask.DeliverRecord | src/network/syslog_output.cpp:175-196 | One record through output and sender in place, its warning back into the queue |
| RemoteLogging.LogTask.ShouldHold | lib/LogCore/src/LogFanout.h:44-53 | The hold of a round, from the clock, the enabling and the network |
| RemoteLogging.LogTask.RunRound | src/core/log_dispatcher.cpp:41-69 | One round of the log task in place is one step of the composition |
| AuthCodecs.LoadUndoesSave | src/network/auth_platform.cpp:44-89 | Loading the saved record gives it back if and only if it has iterations, for every name of 1 to 32 bytes |
| AuthCodecs.SaveUndoesLoad | src/network/auth_platform.cpp:44-66 | An accepted blob is byte for byte what saving the loaded record writes |
| AuthCodecs.AcceptedExactly | src/network/auth_platform.cpp:51-65 | The accepted blobs are exactly the saved ones |
| AuthCodecs.BlobExactly | src/network/auth_platform.cpp:68-84 | The blob octet by octet: version 1, the iterations least significant octet first, salt, hash, length and name, for names of 1 to 32 octets only |
| AuthCodecs.SessionExactly | src/network/auth_platform.cpp:131-150 | The 36 octets of a session |
| AuthCodecs.LoadUndoesSaveSessions | src/network/auth_platform.cpp:91-160 | Loading the saved sessions gives them back if and only if there are no more than asked for |
| AuthCodecs.SaveUndoesLoadSessions | src/network/auth_platform.cpp:91-129 | A blob read as sessions is byte for byte what saving them writes |
| AuthCodecs.Storage.SaveCredentials | src/network/auth_platform.cpp:68-89 | One blob written whole or not at all |
| AuthCodecs.Storage.LoadCredentials | src/network/auth_platform.cpp:44-66 | The record of an accepted blob |
| AuthCodecs.Storage.SaveSessions | src/network/auth_platform.cpp:131-160 | The records one after the other, or no key for none |
| AuthCodecs.Storage.LoadSessions | src/network/auth_platform.cpp:91-129 | The sessions of a sound blob, none from a damaged or too long one, and the failures |
| AutoShutdown.HasToken | include/core/auto_shutdown.h:52-63 | The pointer loop finds a token exactly when it is a whole word of the text |
| AutoShutdown.OncePerEvent | include/core/auto_shutdown.h:35-50 | Between two commands, the first not answered NOT_CONNECTED, there is a connected and fresh reading with OL |
| AutoShutdown.OnlyWhenLow | include/core/auto_shutdown.h:35-47 | Every command answers a connected, fresh reading with OB and LB and without OL |
| AutoShutdown.SentExactly | src/core/main.cpp:59-76 | A check sends the command if and only if the page last turned the option on, the reading is low, the UPS offers it and the event is not used up |
| AutoShutdown.ReadingsSpelledOut | include/core/auto_shutdown.h:35-50 | On line and low are the words OL, OB and LB of a connected, fresh reading |
| AutoShutdown.OffersShutdownDefault | include/core/auto_shutdown.h:76-81 | True exactly when the catalog holds the command; missing items and names are skipped |
| AutoShutdown.Latch.Update | include/core/auto_shutdown.h:35-47 | When to send, and the arming |
| AutoShutdown.Latch.CheckUps | src/core/main.cpp:59-76 | One check in place, with the re-arming of a command that did not reach the UPS |

## Left out

- The control pipe has one logical buffer per device: `hid_class_request_set` and `hid_class_request_get` read its pointer before taking the lock (hid_host.c 1325, 1371), and the callers serialise their requests (2073-2074).
- A GET or SET whose buffer is lost between its argument check and its lock, and a task still waiting for the device mutex when it is deleted.
- A removal whose attempt to take the device lock times out; removal and callbacks run in the same client task.
- Suspend, resume and remote wakeup of the HID driver, its descriptor parsing, its driver install and uninstall, its string descriptors and `in_xfer_done`; clearing an endpoint halt is a SET without data.
- Timeouts of the open/close mutex, the reuse of a USB address while the device that had it is still listed, and a device whose removal failed half-way being removed again.
- The NUT commands that only read (LIST, GET, VER, NETVER) appear in `NutSessions` as one reply text; the error checks before LIST VAR and GET VAR answer are not modelled.
- The reading of request lines from the socket (256 characters, control characters dropped), inactivity times, keepalive and the tracking table behind TRACKING.
- `NutTable::checkSetValue` and the outcome of `executeCommand` and `setVariable` are parameters of a line.
- NutSessions.NutServer.OpenSession: the parallel arrays of the source are one array of session records; peers, times and log lines are not kept.
- The text of the summary line and of most System Log lines; the outputs of a fanout are a sequence of at most four instead of an array with a count.
- RemoteLogging.DrainingEnds: the composition has one output, the only one the firmware adds; how much time a round takes is not modelled.
- RemoteLogging.LogTask.DeliverRecord: the warnings of one record are submitted after the output took it, in the order of the answers; nothing the output does depends on the queue.
- Name resolution, shown states and the web copy of the syslog status; the drain assumes that no resolution failure is logged.
- LogQueue.AppLogger.Read: the list is returned as values, not as JSON, and without board times; the serial line is not modelled.
- A queue that could not be created: `submit` then does nothing.
- SyslogFormat.ParseUndoesFormat: the fields of a time are unbounded integers (the source adds 1900 to a C int), characters are octets without sign, and the parser of RFC 5424 accepts the NILVALUE as the only structured data; the time and host a relay adds under RFC 3164 are not part of what is read.
- Facility and protocol names, level names from the API and the sanitizing of settings.
- `EspAuthCrypto`, the login and session policy above the storage; NVS is a pair of optional blobs that are written whole or not at all.
- `autoShutdownAvailability` and the log lines of the automatic shutdown.
- Easy members: Wi-Fi and Ethernet links, HTTP server, NTP arithmetic, restart policy, LED, crash diagnostics and the other settings stores.
