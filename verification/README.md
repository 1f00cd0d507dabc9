# Motion control link: a verified model

A Raspberry Pi drives a two-wheeled robot through an STM32. The two speak a small serial protocol: an epoch begins
with LINK_SYNC and a token, heartbeats keep it alive, START and END open and close a motion session reliably, and
wheel velocities flow in between. Beneath the protocol the STM32 makes sure that the wheels stop. This project models
both controllers and the line between them, and proves what the design promises.

## How it fits together

- **Agreement.** `StmParty` and `PiParty` say what one event does to each controller's protocol state and which
  frames it sends. `Agreement` joins them by two FIFO channels that may lose any frame, and proves that the two sides
  agree on the session in every run, and that a reboot of the STM32 does not go unnoticed. `StmLaws` and `PiLaws` say
  what each side puts on the line and when. `MainLoop.RunMainLoop` and `ClientRunner.RunClient` prove that the main loop
  and the client, imperative code over mutable state, do only sequences of these events, hear only what was delivered,
  and give up or leave out nothing without a reason that the inputs show. `Robot.RunBoth` joins the two programs and
  proves the agreement of their own states.
- **Lifecycle.** `LifecycleCoordinator` holds the decision table as functions and the handlers as a class that
  follows it; `LifecycleLaws` says what each answer, stop and change of session means, without the table;
  `LifecycleRuns` proves conservation, idempotent retries, late completions and the refinement of unbounded sequence
  numbers over all runs. `ReliableReceiver` and `MotionSequence` are its parts; `MotionSession` and `LinkSession` are the
  Pi's sessions; `LinkRuns` holds the latter to a reference without counters that wrap.
- **Motor safety.** `Firmware` composes `CommandGuard`, `MotionStop`, `MotorDriver`, the link manager and the
  coordinator into one pass of the main loop; `MainLoop` speaks of whole runs, in terms of what came in (clock and encoder
  readings, frames) and what went out (controls offered to the motor port and accepted by it, frames sent). The motor port,
  the transmitter and the encoders may fail or read anything at any time. An unbounded ghost clock runs beside the 32-bit
  millisecond clock. `MotorDriver` also proves the reversal interlock over all call histories of a wheel.
- **Bytes.** `FrameScanner` says without states what a streaming decoder is for; `FrameDecoder` is the eleven-state
  decoder, proved to be the scanner byte by byte. `Crc16` and `CrcBursts` prove burst detection from linearity and
  injectivity of the bit step. `UartRxQueue` and `UartProtocolReceiver` run with the receive interrupt between any two
  accesses to the shared fields.
- **Wheel frames.** `WheelLog` is the account a client can be held to: every wheel frame names the set call it serves.
- **Operator input.** `ManualInputGuard` and `CrsfChannels`.

A class that the source updates in place has methods whose postconditions equate the new abstract state with a function
of the old one; the lemmas are about those functions.

## Where the code and its description disagree

- The motor port's comment says that a reversal reaches it only after the brake interval. An explicit zero or stop
  clears the driver's direction, so forward, zero, reverse is let through at once
  (`MotorDriver.ZeroDefeatsTheInterval`). `MotorDriver.IntervalFailsIff` says exactly when.
- `docs/architecture.md` says that completing an older pending operation does not disturb the latest answer. If the
  sequence number has advanced by exactly 65536 meanwhile, it does (`LifecycleRuns.WrapIsReachable`). Retries are idempotent
  exactly when that has not happened (`LifecycleRuns.RetriesIdempotentIff`; for whole runs
  `LifecycleRuns.LatestIdempotentIff`).
- RFC 1982 leaves serial numbers at distance 0x8000 incomparable; the code calls them stale
  (`MotionSequence.ClassifyIsSerialOrder`).

## Assumptions

- Link tokens differ between epochs, across STM32 reboots as well. Session ids are arbitrary nonzero values.
- A pass of the main loop starts at most 2^32 - 1000 ms after the previous one; neither clock runs backwards; steady clock
  readings on the Pi are positive.
- A send that reports failure may or may not have delivered its frame; a frame damaged on the line is dropped.
- The bytes the wire brings are any finite sequence; the interrupt may take any number of them at any point.

## Model

| member | source | states |
|---|---|---|
| `Agreement.TwoPartyAgreement` | software/rpi/src/stm32_motion_session.cpp:130-192 | In every run over two FIFO channels that may lose any frame, with retries, reconnects, failed sends and spontaneous STM32 resets: if the Pi session is active and the STM32 still synchronised, the coordinator is active with the same session id. |
| `Agreement.IdleAgreement` | software/rpi/src/stm32_motion_session.cpp:130-192 | Whenever the Pi is synchronised and has nothing outstanding and the STM32 is synchronised, one side is active exactly when the other is, and no stop is in progress. |
| `Agreement.LossLasts` | firmware/stm32/App/Src/uart_link_manager.c:51-124 | In every run, once the STM32 has lost the synchronisation that the Pi still relies on, it stays lost until the Pi opens a new epoch, and no new confirmation of a heartbeat ever gets on the line. |
| `Agreement.RebootIsNoticed` | software/rpi/src/stm32_link_session.cpp:143-198 | From then on a heartbeat that was not confirmed already is answered UNSYNCHRONIZED, no reply in the channel renews the link by it, and hearing that answer ends the link: a reboot does not go unnoticed. |
| `Agreement.NextKeeps` | protocol/motion_lifecycle_coordinator.c:347-590 | The invariant behind both: every step of either party or of the channel keeps it. What the channels may hold is tied to the outstanding transaction and its number. |
| `Agreement.SessionsAreReached` | software/rpi/src/stm32_motion_session.cpp:46-84 | The agreement is not vacuous: a run exists in which both sides become active. |
| `Robot.RunBoth` | software/rpi/src/stm32_client_runner.cpp:37-144 | The two programs themselves, joined by two lossy queues and with STM32 reboots anywhere, under any schedule with distinct tokens: their states and the frames between them are those of a run of the joint protocol, so that an active client and a synchronised controller hold the same session; and a wheel is energised only while the port refuses the stop asked last, or exactly as the driver plans for a wheel frame of the active session that the client put on its wire. |
| `Robot.PiMoves` | software/rpi/src/stm32_client_runner.cpp:37-144 | Any events of the client, with what it heard at the head of its queue, are steps of the joint protocol with exactly its new state, frames and tokens. |
| `Robot.StmMoves` | firmware/stm32/Platform/NucleoF446RE/Core/Src/main.c:182-289 | Any events of the main loop are steps of the joint protocol with exactly its new state and frames. |
| `MainLoop.RunMainLoop` | firmware/stm32/Platform/NucleoF446RE/Core/Src/main.c:182-289 | From power-up, over any inputs whose passes are less than a clock period apart. A wheel is energised only while the port refuses the stop asked last, or the link is synchronised, the coordinator active, and some pass less than 250 ms before the last delivered a nonzero wheel command of that very session, for which the control in force was planned: its signed duty is that of the command, or it is a brake. The port is never told to reverse a wheel directly. Conversely, every wheel command taken for the active session was answered in its pass by an accepted control with the duty asked or a brake, unless the port refused; a stop counts as refused only if the port refused it; and the link is given up only on an overflow, a refused stop, or 1000 ms after the last LINK_SYNC or heartbeat that confirmed it; after no pass is it up that long after. After every pass, an active stop operation has been confirmed without a break since the pass after the one that began it, and its readings do not decide yet, whatever commands arrived. Every stop that ended has such passes of its own whose encoder readings decided it. Each delivered frame is taken once, in its own pass, and state and wire are those of the protocol party. |
| `MainLoop.DeadlineIsKept` | firmware/stm32/App/Src/stm32_motion_protocol_manager.c:220-331 | After any pass of a run, an operation that is active still is less than 1000 ms past the first reading of its confirmation, which was taken in the pass after the one that began it: retries and superseding commands never restart it. |
| `MainLoop.OkMeansStopped` | firmware/stm32/App/Src/stm32_motion_protocol_manager.c:220-331 | Behind every OK ever put on the wire, first issue or replay, there is one stop owned by the transaction answered: the readings of its consecutive passes decide for success, and no control in force between its first and last reading drives a wheel. |
| `MainLoop.StopsAreAnswered` | firmware/stm32/App/Src/stm32_motion_protocol_manager.c:302-331 | Conversely, every stop that ended is answered, in the pass whose reading decided: the transaction then pending is told OK exactly if the readings decide for success and STOP_FAILED otherwise, and the answer is on the wire if it was reported as sent. |
| `MainLoop.PassConfirms` | firmware/stm32/App/Src/motion_stop.c:22-82 | A pass continues the running confirmation with its own reading or starts one; the confirmation goes on exactly with the operation; a stop ends on the first reading that decides, as it decides, in a span that starts right after the pass that began it, and spans never overlap. |
| `StmParty.OkHasItsStop` | protocol/motion_lifecycle_coordinator.c:347-590 | In every run an OK is sent by the event that ends a stop owned by its transaction, or replays the answer kept ever since such an event, without a reset in between. |
| `StmParty.CacheOrigin` | protocol/motion_reliable_receiver.c:126-149 | A cached OK was put there by the successful end of a stop that its transaction owned, and has been kept since. |
| `StmLaws.StopIsReported` | firmware/stm32/App/Src/stm32_motion_protocol_manager.c:302-331 | A stop that ends is reported to its owner, OK exactly on success; after a reported OK a session is active exactly if the owner is a START, and it is the owner's; otherwise the link is down and there is no session. |
| `StmLaws.ReportIsOnTheWire` | firmware/stm32/App/Src/stm32_motion_protocol_manager.c:302-331 | In every run the report of a stop that was reported as sent is on the wire. |
| `StmLaws.PartyRunsCoordinator` | firmware/stm32/App/Src/stm32_motion_protocol_manager.c:123-331 | In every run of the party the coordinator is that of a run of its own, so that all that is proved of those holds here. |
| `StmLaws.RepliesAreTrue` | firmware/stm32/App/Src/uart_link_manager.c:96-124 | A heartbeat reply says SYNCHRONIZED only from a synchronised state, to a heartbeat that says so, under its number. |
| `StmLaws.HeartbeatIsAnswered` | firmware/stm32/App/Src/uart_link_manager.c:51-124 | A well-formed heartbeat is answered with the state of the link; the link survives exactly if it was synchronised, the peer says so, and the answer was reported as sent. |
| `StmLaws.UnsynchronizedUntilSync` | firmware/stm32/App/Src/uart_link_manager.c:96-107 | After power-up or a loss of the link, every reply before the next accepted LINK_SYNC says UNSYNCHRONIZED, and the link stays down. |
| `StmLaws.SyncIsEchoed` | firmware/stm32/App/Src/uart_link_manager.c:126-163 | LINK_SYNC is echoed, number and token, exactly if the motors took the stop and the token is well formed; the link is up exactly if the echo was reported as sent; the session is over in any case. |
| `StmLaws.UnsynchronizedIsDeaf` | firmware/stm32/App/Src/stm32_motion_protocol_manager.c:123-218 | Without a synchronised link, commands and wheel velocities change and say nothing. |
| `StmLaws.WheelsEndOnlyBy` | firmware/stm32/App/Src/stm32_motion_protocol_manager.c:180-218 | A wheel command says nothing and changes no session, unless it is one of the active session that the motors refuse: then link and session are gone. |
| `StmLaws.CommandIsAcknowledged` | firmware/stm32/App/Src/stm32_motion_protocol_manager.c:13-73 | A new command is acknowledged under its number, then answered if the coordinator answers at once; nothing else is said. |
| `StmLaws.UnsentAnswerEndsAll` | firmware/stm32/App/Src/stm32_motion_protocol_manager.c:123-178 | A command leaves the link as it is, unless an ACK or answer could not be sent: then link, session and operation are gone. |
| `Firmware.Stm32.Pass` | firmware/stm32/Platform/NucleoF446RE/Core/Src/main.c:182-289 | One pass keeps the whole invariant and ends motor-safe. Wheels that may be in motion are as they were, or were set in motion by a nonzero wheel command of the session driven that this pass delivered, as the driver plans for it; and wheels in motion whose command is less than 250 ms old go on untouched if nothing about motion was delivered and the link stays up. At its end a confirmation runs exactly if the operation active before the pass is active still, with exactly the readings of the pass added and not deciding; a stop that ends does so as they decide, with the motors at rest since the first of them if it succeeds. The delivered frame is taken exactly once; every event that refuses or gives up something is justified by what the port, the receiver or the clock showed. |
| `Firmware.Stm32.ManagerUpdate` | firmware/stm32/App/Src/stm32_motion_protocol_manager.c:220-331 | Watchdog first, then the confirmation: unless the guard cannot stop, a pending stop ends exactly as the readings so far decide, and goes on with exactly these readings while they do not; a success implies no wheel energised since the first of them. A failed stop or an unsent answer is exactly what makes main reset the link. |
| `Firmware.Stm32.CompleteStop` | firmware/stm32/App/Src/stm32_motion_protocol_manager.c:302-331 | The coordinator takes the verdict for its active operation, the answer to the owner goes out, and the motors are left alone. |
| `Firmware.Stm32.AdvanceStop` | firmware/stm32/App/Src/stm32_motion_protocol_manager.c:257-300 | The confirmation is begun once per stop, with a reading of its own, then advanced by one reading per update; it ends exactly when these readings decide. |
| `Firmware.Stm32.ProcessAction` | firmware/stm32/App/Src/stm32_motion_protocol_manager.c:13-73 | ACK and answer go out in that order, each possibly reported as failed yet delivered; a requested stop becomes the pending one and leaves the wheels braked or a stop owed. |
| `Firmware.Stm32.ReceiveCommand` | firmware/stm32/App/Src/stm32_motion_protocol_manager.c:123-178 | A lifecycle command moves the controller exactly as the protocol party, and a running confirmation goes on untouched exactly while the operation is the same; a failed transmission resets link and session. |
| `Firmware.SameOperation` | firmware/stm32/App/Src/stm32_motion_protocol_manager.c:13-331 | Through update, reception and link supervision, the confirmation runs at the end exactly if the operation is the one the pass began with; a new operation never has its id. |
| `Firmware.Stm32.ReceiveWheels` | firmware/stm32/App/Src/stm32_motion_protocol_manager.c:180-218 | A command for the active session is put to the motors: the port accepts exactly the controls the driver plans for the converted velocities, or refuses these first, or a stop it refused is still owed. The watchdog is armed only by a nonzero one that was accepted; a refusal resets link and session. |
| `Firmware.Stm32.HandleLinkSync` | firmware/stm32/App/Src/uart_link_manager.c:126-163 | Synchronisation always stops first; the link is up afterwards exactly when the port accepted the stop, the token was well formed and the answer was reported as sent. |
| `Firmware.Stm32.HandleHeartbeat` | firmware/stm32/App/Src/uart_link_manager.c:51-124 | The link is up afterwards exactly if it was, the heartbeat says so and the reply, which says so too, was reported as sent; then it counts as confirmed now, and watchdog and motors are untouched. Whenever it goes down the motors are stopped or a stop is owed; a stop is called refused only if the port refused it. |
| `Firmware.Stm32.LinkStage` | firmware/stm32/App/Src/uart_link_manager.c:217-241 | A link confirmed less than 1000 ms ago is kept and nothing is asked of the motors; one that was not is lost, with stop and session reset. |
| `Firmware.Stm32.StartOver` | firmware/stm32/Platform/NucleoF446RE/Core/Src/main.c:77-86 | reset_link_and_stop_motion leaves a controller that holds the whole invariant, unsynchronised and without session, from any point where it may be called. |
| `Firmware.PassJustified` | firmware/stm32/Platform/NucleoF446RE/Core/Src/main.c:182-289 | Stages that account for their events account for the whole pass, and the link counts as confirmed in it exactly if one of them confirmed it. |
| `Firmware.FeedforwardAmount` | firmware/stm32/App/Src/wheel_velocity_feedforward.c:5-67 | The duty asked of a wheel: none for standstill; otherwise 50 of 1000 and the share of the other 950 that the speed has of 400 mm/s, rounded down, with the sign of the velocity; 1000 beyond. |
| `Firmware.FeedforwardRises` | firmware/stm32/App/Src/wheel_velocity_feedforward.c:5-67 | A higher velocity never asks for a lower command, over the whole 16-bit range. |
| `MotionStop.DecisionIff` | firmware/stm32/App/Src/motion_stop.c:39-82 | Failure means exactly that 1000 ms or more have passed since the first reading; success, exactly that they have not and that from some reading on, 200 ms ago or more, all were equal. |
| `MotionStop.MotionStop.Begin` | firmware/stm32/App/Src/motion_stop.c:22-37 | A confirmation starts with one reading as its whole history; operation id zero is refused and changes nothing. |
| `MotionStop.MotionStop.Update` | firmware/stm32/App/Src/motion_stop.c:39-82 | The verdict is the decision of all readings since the start: failure on the first update at or after 1000 ms, else success once the last equal readings span 200 ms, else none. The wrapped clock arithmetic is exact. |
| `MotionStop.QuietReadingsEqual` | firmware/stm32/App/Src/motion_stop.c:48-80 | All readings of the quiet run that ends now are equal. |
| `MotionStop.QuietExtended` | firmware/stm32/App/Src/motion_stop.c:48-80 | Keeping only the previous counts and the time of the last movement determines the quiet run of the whole history. |
| `CommandGuard.MotionWatchdog.Refresh` | firmware/stm32/App/Src/motion_watchdog.c:26-36 | A refresh arms the watchdog as of now, unless it is not initialised. |
| `CommandGuard.MotionWatchdog.Expired` | firmware/stm32/App/Src/motion_watchdog.c:48-55 | Expiry by the wrapped clock is expiry by true time, while less than a clock period has passed. |
| `CommandGuard.CommandGuard.Apply` | firmware/stm32/App/Src/motion_command_guard.c:56-86 | An accepted command controls both wheels as planned; a nonzero one arms the watchdog; an accepted zero leaves the wheels at rest and unwatched. Nothing is accepted while a stop is owed; any other command in range is refused only if the port refused exactly the planned control, and then the motors are at rest or a stop is owed. |
| `CommandGuard.CommandGuard.Stop` | firmware/stm32/App/Src/motion_command_guard.c:46-54 | A stop is put to the port; the stop latch is set exactly when the port refused it. |
| `CommandGuard.CommandGuard.Update` | firmware/stm32/App/Src/motion_command_guard.c:88-106 | Nothing is done only while no stop is owed and no watch has expired; an owed stop is retried until it succeeds, and one is owed only while the last thing asked of the port was a stop that it refused. |
| `MotorDriver.ReversalInterlock` | firmware/stm32/App/Src/motor_driver_dri0041.c:120-316 | Per wheel, under any port failures: two consecutive accepted controls never drive opposite ways, and between opposite drives with no explicit zero or stop in between a brake was accepted at least 100 ms before the second. |
| `MotorDriver.IntervalFailsIff` | firmware/stm32/App/Src/motor_driver_dri0041.c:139-282 | The brake interval promised for every reversal fails exactly when an explicit zero or stop was accepted since the last drive and the wheel has not been braked for 100 ms; then, and only then, an early opposite drive is let through. |
| `MotorDriver.ZeroDefeatsTheInterval` | firmware/stm32/Platform/NucleoF446RE/Port/motor_driver_dri0041_port_stm32.c:117-120 | The comment promises a brake interval before every reversal; forward, zero, reverse in quick succession is a history in which there is none. |
| `MotorDriver.RunKeeps` | firmware/stm32/App/Src/motor_driver_dri0041.c:120-316 | In every history the driver's direction is that of the last accepted drive unless zero was asked for since, and a pending reversal has been braked since its recorded start. |
| `MotorDriver.MotorDriver.ApplyCommand` | firmware/stm32/App/Src/motor_driver_dri0041.c:120-286 | Both wheels take one step of their history with the same verdict of the port; exactly the planned control is offered to it, and what it accepted is what that history accounts for: each accepted control has the signed duty of the command asked then, or is a brake. Out-of-range commands and an uninitialised driver change nothing. |
| `MotorDriver.NeverReversedDirectly` | firmware/stm32/App/Src/motor_driver_dri0041.c:120-316 | Whatever the driver was asked and the port refused, no two consecutive controls the port accepted drive a wheel in opposite directions. |
| `MotorDriver.ExplainsMore` | firmware/stm32/App/Src/motor_driver_dri0041.c:120-316 | Every call extends the histories of both wheels so that they keep accounting for all the port accepted. |
| `MotorDriver.RestStays` | firmware/stm32/App/Src/motor_driver_dri0041.c:288-316 | A past interval without an energised wheel stays one whatever the port accepts later. |
| `MotorDriver.MotorDriver.StopMotors` | firmware/stm32/App/Src/motor_driver_dri0041.c:288-316 | An accepted stop brakes both wheels and forgets direction and reversal; a refused one changes neither the controls nor the wheels. |
| `MotorDriver.ControlOf` | firmware/stm32/App/Src/motor_driver_dri0041.c:29-95 | The signed duty of the control, with in1 forwards and with in2 backwards, is the command; zero is a brake. |
| `MotorDriver.PassedOnAsAsked` | firmware/stm32/App/Src/motor_driver_dri0041.c:139-212 | A command that asks for no reversal, given the last drive in force, is passed on with exactly its duty and direction. |
| `MotorDriver.ReversalGoesThrough` | firmware/stm32/App/Src/motor_driver_dri0041.c:139-282 | A reversal first accepted as a brake is passed on with exactly its duty once it is asked again 100 ms later. |
| `MotorDriver.ObeyedMore` | firmware/stm32/App/Src/motor_driver_dri0041.c:120-316 | Entry by entry, what the port accepted answers the accepted calls: with the signed duty asked, or a brake; a stop, with a brake. |
| `LifecycleLaws.StopIsAnswered` | protocol/motion_lifecycle_coordinator.c:347-426 | When a stop ends, in any run, its owner, read off the deliveries and answers as the transaction accepted last that was not answered itself, and nobody else, is answered: OK exactly if the stop succeeded, STOP_FAILED otherwise. Then a session is active exactly after a successful START, with its id; otherwise there is none. |
| `LifecycleLaws.OwnerIsPending` | protocol/motion_lifecycle_coordinator.c:347-590 | That owner is the transaction the coordinator holds as pending, in every run. |
| `LifecycleLaws.AnswersMeanWhatTheySay` | protocol/motion_lifecycle_coordinator.c:40-345 | Each of ALREADY_ACTIVE, ALREADY_ENDED, SESSION_MISMATCH, BUSY_STOPPING, INVALID_COMMAND and SUPERSEDED is given at once exactly when its meaning holds of state, session and command before; no other code is; and every new transaction is acknowledged. |
| `LifecycleLaws.StopsAreAskedFor` | protocol/motion_lifecycle_coordinator.c:40-133 | A stop is asked for exactly to begin a session when none or another one is running, and to end the running one; then and only then nothing is answered yet. |
| `LifecycleLaws.OwnersTakeOver` | protocol/motion_lifecycle_coordinator.c:179-323 | The transaction that asks for a stop, or supersedes the owner of the one in progress, owns it from then on and says whether a session is to begin and which; any other changes neither state, session, owner nor operation. |
| `LifecycleLaws.OldDeliveriesMoveNothing` | protocol/motion_lifecycle_coordinator.c:441-476 | A delivery that is not new changes nothing and asks for nothing; unless it repeats the latest transaction it is not even answered. |
| `LifecycleLaws.ActiveIsLeftOnlyBy` | protocol/motion_lifecycle_coordinator.c:508-590 | An active session is left only through a reset, an END with its own id, or a START with another id. |
| `LifecycleLaws.ActiveIsEnteredOnlyBy` | protocol/motion_lifecycle_coordinator.c:366-404 | A session becomes active only when the stop in progress has succeeded and a START owns it, under its id. |
| `LifecycleLaws.ForeignEndIsHarmless` | protocol/motion_lifecycle_coordinator.c:135-155 | An END of another session changes neither state, session nor operation. |
| `LifecycleRuns.Conservation` | protocol/motion_lifecycle_coordinator.c:347-590 | Between resets, the bag of transactions accepted as new equals the bag of those given a first terminal answer plus the one pending. |
| `LifecycleRuns.StepBalances` | protocol/motion_lifecycle_coordinator.c:428-590 | Every event either answers exactly what it accepts and leaves the pending owner, or answers the owner and makes the accepted transaction the new one (or none). |
| `LifecycleRuns.PendingOperationAndStateCoincide` | protocol/motion_lifecycle_coordinator.c:347-590 | In every run a pending transaction, an active stop operation and the states STARTING or ENDING coincide, and no delivery is classified invalid. |
| `LifecycleRuns.OperationIdsOfRun` | protocol/motion_lifecycle_coordinator.c:4-38 | Across resets the k-th stop operation has id ((k-1) mod (2^32-1)) + 1, and only the latest can be active. |
| `LifecycleRuns.LateCompletion` | protocol/motion_lifecycle_coordinator.c:347-426 | A completion for the j-th operation takes effect exactly when a stop is active and a whole number of id cycles separates j from the latest operation; otherwise the state is unchanged and nothing is answered. |
| `LifecycleRuns.StaleCompletionIgnored` | protocol/motion_lifecycle_coordinator.c:347-426 | Within one id cycle every completion of an earlier operation is ignored. |
| `LifecycleRuns.SameIdMeansWholeCycles` | protocol/motion_lifecycle_coordinator.c:4-18 | Two operations share an id exactly when a whole number of cycles lies between them. |
| `LifecycleRuns.RetriesIdempotentIff` | protocol/motion_lifecycle_coordinator.c:441-505 | For the transaction that owns the frontier, any number of redeliveries with any completions in between always ACKs, changes nothing and replays the same answer if and only if the frontier has not wrapped onto the number of a pending transaction. |
| `LifecycleRuns.LatestIdempotentIff` | protocol/motion_lifecycle_coordinator.c:441-505 | In every run, the transaction accepted last can be redelivered any number of times with the same answer if and only if, when it was accepted, its number was not that of a transaction still pending. |
| `LifecycleRuns.SinceAcceptance` | protocol/motion_reliable_receiver.c:126-149 | From its acceptance on, the latest transaction owns the frontier for good, or was wrapped then and stays so until the completion overwrites its answer. |
| `LifecycleRuns.RetriesKeepAnswer` | protocol/motion_lifecycle_coordinator.c:441-505 | Along retries an answer once given never changes, and no new operation id is drawn. |
| `LifecycleRuns.WrapIsReachable` | protocol/motion_reliable_receiver.c:142-148 | The wrap is reachable: three unknown commands advancing the number by 0x7FFF, 0x7FFF and 2 while a START is pending; the completion then overwrites the cached answer. |
| `LifecycleRuns.ReceiverRefinesIntegers` | protocol/motion_reliable_receiver.c:9-73 | While each arriving true number lies within [-0x8000, 0x7FFF] of the highest accepted, new, stale and same agree with comparing integers. |
| `LifecycleRuns.FrontierIsHighest` | protocol/motion_reliable_receiver.c:95-149 | Under that condition the frontier is the highest accepted number modulo 2^16. |
| `LifecycleCoordinator.DeliverKeepsConsistent` | protocol/motion_lifecycle_coordinator.c:428-590 | Every delivery keeps the coordinator invariant: frontier explained by a record, owner matching state and session, cached answers still true of the state. |
| `LifecycleCoordinator.CompleteKeepsConsistent` | protocol/motion_lifecycle_coordinator.c:347-426 | Every completion report keeps it. |
| `LifecycleCoordinator.NeverInvalid` | protocol/motion_reliable_receiver.c:70-72 | A consistent coordinator never classifies a delivery as invalid. |
| `LifecycleCoordinator.MotionLifecycleCoordinator.HandleTransaction` | protocol/motion_lifecycle_coordinator.c:428-590 | The handlers in place do what the decision table says: same new state, same ACK, answer and stop operation. |
| `LifecycleCoordinator.MotionLifecycleCoordinator.CompleteOperation` | protocol/motion_lifecycle_coordinator.c:347-426 | The completion in place does what the table says. |
| `LifecycleCoordinator.MotionLifecycleCoordinator.ResetSession` | protocol/motion_lifecycle_coordinator.c:30-38 | A reset forgets session and receiver but not the operation counter. |
| `ReliableReceiver.MotionReliableReceiver.Decide` | protocol/motion_reliable_receiver.c:9-73 | The decision over flags and values is the one over the abstract receiver. |
| `ReliableReceiver.MotionReliableReceiver.Complete` | protocol/motion_reliable_receiver.c:126-149 | Only the pending transaction can be completed; its answer is cached only if it still carries the latest number. |
| `ReliableReceiver.MotionReliableReceiver.Begin` | protocol/motion_reliable_receiver.c:95-110 | Acceptance as pending moves the frontier and drops the cached answer. |
| `ReliableReceiver.MotionReliableReceiver.Record` | protocol/motion_reliable_receiver.c:112-124 | An immediate answer moves the frontier and leaves the pending transaction. |
| `MotionSequence.ClassifyIsSerialOrder` | protocol/motion_sequence.c:4-20 | Newer is exactly the order of section 3.2 of RFC 1982; where the RFC leaves two numbers incomparable (distance 0x8000) the code says stale. |
| `MotionSequence.ClassifyTrueNumbers` | protocol/motion_sequence.c:4-20 | Inside the window, classifying wrapped numbers is comparing the true ones. |
| `MotionSession.BoundedExactRetransmission` | software/rpi/src/stm32_motion_session.cpp:243-309 | In every run a transaction is pending exactly in StartPending and EndPending, has been handed out at most four times, and each time as the same frame. |
| `MotionSession.RetrySpacing` | software/rpi/src/stm32_motion_session.cpp:254-287 | A retry repeats the first frame, is at most the fourth transmission, and comes at least 100 ms, or 750 ms once ACKed, of true time after the last confirmed transmission or first ACK. |
| `MotionSession.RetryIffDue` | software/rpi/src/stm32_motion_session.cpp:254-309 | In every run, once the last frame handed out is confirmed as sent, a retry is given out if and only if the 100 ms, or 750 ms once ACKed, of true time are up and fewer than four were handed out; when they are up after the fourth, and only then, the retries are exhausted. |
| `MotionSession.ResponseIsExact` | software/rpi/src/stm32_motion_session.cpp:130-192 | Exactly the answer to the pending triple counts; a START answered OK or ALREADY_ACTIVE makes its session active, any other answer leaves none. |
| `MotionSession.AckIsExact` | software/rpi/src/stm32_motion_session.cpp:86-128 | Exactly the ACK of the pending number, accepted, counts, and it restarts the timer once. |
| `MotionSession.RunTracked` | software/rpi/src/stm32_motion_session.cpp:46-331 | The invariant of all runs that ties retry counter, timer and ACK flag to the history of the transaction. |
| `MotionSession.Stm32MotionSession.OnResponse` | software/rpi/src/stm32_motion_session.cpp:130-192 | Only the exact pending triple is accepted; it ends the transaction and decides active or inactive. |
| `MotionSession.Stm32MotionSession.OnAck` | software/rpi/src/stm32_motion_session.cpp:86-128 | An ACK counts only for the pending number with status accepted, and only the first restarts the timer. |
| `MotionSession.Stm32MotionSession.TakeRetryIfDue` | software/rpi/src/stm32_motion_session.cpp:254-287 | A retry is given out exactly when the timeout has passed and fewer than three were, and then the timer waits for the next confirmed send. |
| `MotionSession.Stm32MotionSession.BeginStartSession` | software/rpi/src/stm32_motion_session.cpp:46-84 | A START begins exactly when nothing is pending, under the next number. |
| `MotionSession.Stm32MotionSession.BeginEndSession` | software/rpi/src/stm32_motion_session.cpp:194-231 | An END begins exactly for the active session with nothing pending. |
| `LinkRuns.LinkIsSupervised` | software/rpi/src/stm32_link_session.cpp:15-228 | In every run the session is up, waits, sends and expects exactly as a reference that counts frames and milliseconds without bound: up on the answer with awaited number and token, one heartbeat per 250 ms, confirmed by the reply to the outstanding one, down on its contrary and after 1000 ms. |
| `LinkRuns.UpMeansConfirmed` | software/rpi/src/stm32_link_session.cpp:200-215 | A link that survives its check was confirmed less than 1000 ms of true time ago. |
| `LinkSession.Stm32LinkSession.OnHeartbeatResponse` | software/rpi/src/stm32_link_session.cpp:143-198 | Only a reply to the outstanding heartbeat counts; synchronised renews the link, unsynchronised drops it, anything else changes nothing. |
| `LinkSession.Stm32LinkSession.OnLinkSyncOk` | software/rpi/src/stm32_link_session.cpp:96-141 | The link comes up exactly on the answer with the pending number and token. |
| `LinkSession.Stm32LinkSession.CheckLinkTimeout` | software/rpi/src/stm32_link_session.cpp:200-215 | The link drops exactly when synchronised and 1000 ms without an accepted reply. |
| `LinkSession.Stm32LinkSession.TakeHeartbeatIfDue` | software/rpi/src/stm32_link_session.cpp:15-60 | A heartbeat goes out exactly when synchronised and 250 ms after the last; it becomes the outstanding one. |
| `PiLaws.OpeningSays` | software/rpi/src/stm32_link_session.cpp:62-141 | An epoch opens with LINK_SYNC under the next number and the token, without a session; it waits exactly if the send was reported as such, and is synchronised by exactly the answer with that number and token. |
| `PiLaws.RetryRepeats` | software/rpi/src/stm32_motion_session.cpp:233-287 | A due retry puts exactly the pending command on the line again and a retry that is not due does nothing: due is 100 ms after the last confirmed transmission, 750 ms after the first ACK, at most three times. |
| `PiLaws.BeatSounds` | software/rpi/src/stm32_link_session.cpp:15-60 | 250 ms after the last one, while the link is up, a heartbeat goes out under the next number and becomes the outstanding one; otherwise nothing happens. |
| `PiLaws.SessionSays` | software/rpi/src/stm32_motion_session.cpp:13-84 | Sessions are started, ended and driven by frames that carry their id and the next number; only an active one is driven. |
| `PiLaws.HearingMeans` | software/rpi/src/stm32_client_runner.cpp:425-508 | While the link is up, the reply to the outstanding heartbeat renews or ends it, the answer to the pending command settles it, its first ACK starts the longer wait, and nothing else that is heard does anything. |
| `PiLaws.CheckMeans` | software/rpi/src/stm32_link_session.cpp:200-215 | The check takes down exactly a link not confirmed for 1000 ms. |
| `ClientRunner.RunClient` | software/rpi/src/stm32_client_runner.cpp:31-144 | From power-up, for any set calls and polls, whatever the port does. The recorded sets are the set calls in order, with their times and the number of epochs opened by then. Each epoch began in the poll that opened it. The wheel frames on the wire are those of the log, entry by Drive event; each was decided in the poll that sent it and serves the latest set call then, made in the same epoch less than 200 ms before, with a nonzero command, at least 50 ms after the confirmed send of the previous one of its session. What is heard in a poll is what the port delivered in it, in order. A synchronising epoch ends only if the port is gone or 1000 ms have passed since it began, and until then the answer with its number and token synchronises the client; a synchronised one ends only after 1000 ms without an accepted reply, with the retries exhausted, on a failed send, with the port gone or on a reply UNSYNCHRONIZED, and the first four always end it. A round that lasts starts a session exactly if none exists and motion is wanted, drives exactly if one is active, motion is wanted and 50 ms are over, and ends it exactly if motion is not wanted, as the set calls and the clock say at two moments of the poll. State and wire are those of the Pi protocol party. |
| `WheelLog.AccountedDrive` | software/rpi/src/stm32_client_runner.cpp:278-312 | One more wheel frame keeps the account: one entry per Drive event, in the epoch and session that the events count up to, fresh and spaced, and the wire carries exactly the entries that went out. |
| `WheelLog.AccountedSet` | software/rpi/src/stm32_client_runner.cpp:31-35 | A later set call takes nothing from the frames that served earlier ones. |
| `ClientRunner.Stm32ClientRunner.Poll` | software/rpi/src/stm32_client_runner.cpp:37-120 | Any poll in any phase keeps the invariant, sets no command, sends at most one wheel frame, decided during the poll, and hears only what the port delivered, in order. An epoch ends only for one of its reasons and does not outlive them: a synchronising one, the port gone or its deadline of 1000 ms; a synchronised one, a silent link, exhausted retries, a failed send, the port gone or a reply UNSYNCHRONIZED. A new epoch starts only when no reconnect deadline is ahead, with the token drawn and without a command; an epoch that ends sets the deadline 500 ms ahead and drops the command. |
| `ClientRunner.Stm32ClientRunner.SynchronizedIteration` | software/rpi/src/stm32_client_runner.cpp:146-513 | A round that succeeds is exactly: link check, retry, at most one start, one wheel frame and one end, one heartbeat opportunity, then all that the port delivered, heard in order, with exactly the frames that the latest set call, the account of wheel frames and the clock call for; one that fails is a beginning of this, and fails only for one of the reasons that end an epoch. |
| `ClientRunner.Stm32ClientRunner.SynchronizingIteration` | software/rpi/src/stm32_client_runner.cpp:515-588 | The epoch is given up only once the deadline has passed or the port is gone; before the deadline the client is synchronised exactly if the frames delivered hold the answer with its number and token. |
| `ClientRunner.ChecksDecide` | software/rpi/src/stm32_client_runner.cpp:162-190 | The checks of the two sessions end a round exactly after 1000 ms without an accepted reply, and when the fourth transmission has gone unanswered for 100 ms, or 750 ms once ACKed. |
| `ClientRunner.MillisecondsPass` | software/rpi/src/stm32_client_runner.cpp:150-160 | What the sessions measure with the 32-bit millisecond counter is the time passed on the nanosecond clock, to the millisecond, below one period of the counter. |
| `ClientRunner.LawfulNow` | software/rpi/src/stm32_client_runner.cpp:37-144 | What the runner's fields said before a call is what the run until then says: the set calls, the log, the epochs and the sessions started. |
| `ClientRunner.Stm32ClientRunner.SetWheelCommand` | software/rpi/src/stm32_client_runner.cpp:31-35 | The call is recorded as the newest, at the clock it read, in the current epoch. |
| `ClientRunner.Stm32ClientRunner.LaunchWheels` | software/rpi/src/stm32_client_runner.cpp:286-308 | The branch "Failed to create WHEEL_VELOCITY" cannot be taken; the frame carries the command under the id of the active session, and is one Drive event. |
| `ClientRunner.Stm32ClientRunner.StartSessionAs` | software/rpi/src/stm32_client_runner.cpp:218-276 | The branch "Failed to create MOTION_START" cannot be taken; the id remembered is the one being started. |
| `ClientRunner.Stm32ClientRunner.EndIfWanted` | software/rpi/src/stm32_client_runner.cpp:314-359 | The branch "Failed to create MOTION_END" cannot be taken; an active session is ended exactly when the command is stale or zero. |
| `ClientRunner.Stm32ClientRunner.LinkAndRetry` | software/rpi/src/stm32_client_runner.cpp:162-216 | A round ends here exactly after 1000 ms without an accepted reply, when the fourth transmission has gone unanswered for 100 ms or 750 ms, or when a retry could not be sent; otherwise the link is checked and a due retry sent once. |
| `ClientRunner.Stm32ClientRunner.StartIfWanted` | software/rpi/src/stm32_client_runner.cpp:218-276 | A session is started exactly when none exists and the latest set call, of this epoch, is less than 200 ms old at the decision and asks for motion; under a nonzero id. |
| `ClientRunner.Stm32ClientRunner.DriveIfWanted` | software/rpi/src/stm32_client_runner.cpp:278-312 | A wheel frame is sent exactly when the session is active, the command fresh and nonzero, and 50 ms have passed since the last confirmed one. |
| `ClientRunner.Stm32ClientRunner.HearFrame` | software/rpi/src/stm32_client_runner.cpp:425-508 | Each decoded frame is heard once; the round ends exactly when it is the reply to the outstanding heartbeat and reports the STM32 unsynchronised. |
| `ClientRunner.StartBegins` | software/rpi/src/stm32_motion_session.cpp:46-84 | An inactive coherent session can always be started under the given id. |
| `ClientRunner.EndBegins` | software/rpi/src/stm32_motion_session.cpp:194-231 | An active coherent session can always be ended under its own id. |
| `ClientRunner.ResponseEnds` | software/rpi/src/stm32_client_runner.cpp:465-508 | A terminal answer to a START makes the session active under the remembered id or inactive; to an END, inactive; anything else changes nothing. |
| `ClientRunner.Stm32ClientRunner.OpenEpoch` | software/rpi/src/stm32_client_runner.cpp:608-660 | An epoch begins with no command and no session, and is one Open event with the token drawn, whatever the send reports; then LINK_SYNC is on the wire under the number awaited. Its start is recorded. |
| `ClientRunner.Stm32ClientRunner.DisconnectEpoch` | software/rpi/src/stm32_client_runner.cpp:663-676 | The command goes with the epoch. |
| `Crc16.Update` | protocol/crc16_ccitt_false.c:5-31 | The nested loops compute the fold of one byte step. |
| `Crc16.CheckValue` | protocol/crc16_ccitt_false.c:5-41 | The CRC of the digits 1 to 9 is 0x29B1, the published check value of CRC-16/CCITT-FALSE. |
| `Crc16.FeedAllLinear` | protocol/crc16_ccitt_false.c:5-31 | The CRC of a corrupted message from a combined register is the sum of the CRCs of message and corruption. |
| `Crc16.FeedAllConcat` | protocol/crc16_ccitt_false.c:5-31 | The CRC can be continued: over two pieces it is that of the second from that of the first. |
| `Crc16.ZeroesKeepZero` | protocol/crc16_ccitt_false.c:5-31 | Zero bytes keep a zero register zero and a nonzero one nonzero. |
| `CrcBursts.WindowNonzero` | protocol/crc16_ccitt_false.c:12-27 | A nonzero pattern of at most 16 bits at any bit offset of three bytes is never reduced to zero. |
| `CrcBursts.BurstNonzero` | protocol/crc16_ccitt_false.c:5-31 | A nonempty corruption confined to 16 consecutive bits has a nonzero CRC of its own. |
| `CrcBursts.ResidueOf` | protocol/crc16_ccitt_false.c:33-41 | A message followed by two bytes leaves register zero exactly when they are its CRC, high byte first. |
| `CrcBursts.BurstDetected` | protocol/crc16_ccitt_false.c:5-41 | A message followed by its CRC, changed in some bits all within 16 consecutive ones, is no longer a message followed by its CRC. |
| `Frames.Encode` | protocol/protocol_frame_encoder.c:8-47 | The output starts with the encoding and is otherwise untouched; a payload over 64 bytes is refused before anything is written. |
| `ByteCodec.JoinIsBigEndian` | protocol/byte_codec.c:3-8 | Two bytes joined are the 16-bit word with the first as its high byte, in terms of the bits. |
| `Frames.Layout` | protocol/protocol_frame_encoder.c:8-47 | Magic 0xA5 0x5A, version 1, type, number and length high byte first, payload, and the CRC of everything from the version on, high byte first; ten bytes more than the payload. |
| `FrameScanner.Sound` | protocol/protocol_frame_decoder.c:103-309 | For every stream from a fresh decoder: each delivered frame, encoded again, is the exact suffix of the bytes fed, and all delivered frames lie in the stream as separate blocks in order. |
| `FrameScanner.GenuineIsEncoding` | protocol/protocol_frame_decoder.c:273-301 | A candidate that passes length and CRC is byte for byte the encoding of the frame read from it. |
| `FrameScanner.DeliversAll` | protocol/protocol_frame_decoder.c:103-309 | From a state that waits for magic, any run of encodings, with noise free of 0xA5 between them, is delivered exactly and in order. |
| `FrameScanner.OneFrame` | protocol/protocol_frame_decoder.c:103-309 | The encoding of any frame is delivered as that frame, and nothing is left over. |
| `FrameScanner.EncodingIsGenuine` | protocol/protocol_frame_encoder.c:8-47 | The encoding of a frame is complete, passes the CRC and reads back as the frame. |
| `FrameScanner.BurstIsRejected` | protocol/protocol_frame_decoder.c:276-289 | Any nonempty corruption within 16 consecutive bits that spares magic, version and length bytes makes the decoder deliver nothing of that frame. |
| `FrameScanner.Resynchronises` | protocol/protocol_frame_decoder.c:37-62 | From every candidate the decoder can hold, any 73 or more bytes none of which is 0xA5 bring it back to waiting for the first magic byte. |
| `FrameScanner.RankFalls` | protocol/protocol_frame_decoder.c:37-62 | The measure behind it falls with every byte that is not 0xA5. |
| `FrameScanner.ResynchronisationIsTight` | protocol/protocol_frame_decoder.c:37-62 | 72 such bytes do not always suffice. |
| `FrameScanner.KeptIsTail` | protocol/protocol_frame_decoder.c:37-62 | What the decoder holds is always the tail of the stream and may still become a frame. |
| `FrameDecoder.ProtocolFrameDecoder.FeedByte` | protocol/protocol_frame_decoder.c:103-309 | One byte through the eleven states, with payload index in bounds, is one step of the scanner: same candidate afterwards, a frame announced exactly when the scanner finds one, and the same frame. |
| `FrameDecoder.ProtocolFrameDecoder.ResetSearch` | protocol/protocol_frame_decoder.c:37-62 | After a failed candidate exactly a trailing start of magic is kept. |
| `FrameDecoder.ProtocolFrameDecoder.Reset` | protocol/protocol_frame_decoder.c:82-101 | A reset leaves the decoder waiting for the first magic byte. |
| `FrameDecoder.Ends` | protocol/protocol_frame_decoder.c:273-301 | The last CRC byte completes the frame exactly when the received CRC is the calculated one; otherwise the search restarts from the candidate. |
| `UartRxQueue.UartRxQueue.Push` | firmware/stm32/App/Src/uart_rx_queue.c:31-53 | A byte is stored exactly when the queue is neither overflowed nor full, behind all unread ones; otherwise the overflow flag is set, the byte goes on record as lost and nothing stored is touched. |
| `UartRxQueue.UartRxQueue.Pop` | firmware/stm32/App/Src/uart_rx_queue.c:55-75 | With interrupts between any two accesses, bytes come out in wire order, each once; a refusal means overflow or that all that had come before the call has been read. |
| `UartRxQueue.UartRxQueue.Reset` | firmware/stm32/App/Src/uart_rx_queue.c:19-29 | Reading resumes with the first byte that comes after the flag is lowered, and nothing older is delivered. |
| `UartRxQueue.HoldsPush` | firmware/stm32/App/Src/uart_rx_queue.c:46-52 | Across the wrap of the 32-bit counters a write goes to a slot that holds no unread byte. |
| `UartRxQueue.HoldsPop` | firmware/stm32/App/Src/uart_rx_queue.c:69-74 | Across the wrap a read removes exactly the oldest byte. |
| `UartProtocolReceiver.UartProtocolReceiver.Poll` | firmware/stm32/App/Src/uart_protocol_receiver.c:39-83 | A returned frame is the exact end of the stretch of the wire seen since the last reset, in which no byte was lost, and the next of the frames in it; NONE means all bytes that had come before the call were decoded and held no further frame; OVERFLOW means the byte before the new start was refused by the queue, and both queue and decoder start over behind it. |
| `UartProtocolReceiver.TrackedStep` | firmware/stm32/App/Src/uart_protocol_receiver.c:62-76 | Frames returned over the whole life, across overflows, lie on the wire as separate blocks in order: none spans a gap. |
| `UartProtocolReceiver.FrameIsHere` | firmware/stm32/App/Src/uart_protocol_receiver.c:64-76 | A frame found is, encoded again, the end of the stretch seen. |
| `ManualInputGuard.ManualInputGuard.Poll` | software/rpi/src/manual_input_guard.cpp:12-25 | True exactly when a disabled neutral sample is directly followed by an enabled neutral one, all later samples are enabled, and every gap from there up to now is under 200 ms. |
| `ManualInputGuard.ManualInputGuard.OnChannels` | software/rpi/src/manual_input_guard.cpp:27-73 | A sample extends the history; the three states remain a function of it. |
| `ManualInputGuard.ArmedStep` | software/rpi/src/manual_input_guard.cpp:44-73 | What one more sample does to an armed history, in both directions. |
| `CrsfChannels.Decode` | software/rpi/src/crsf_channels.cpp:3-33 | Channel i is the i-th base-2048 digit of the 22 bytes read as a little-endian number; another type or length changes nothing. |
| `CrsfChannels.Refill` | software/rpi/src/crsf_channels.cpp:18-22 | The inner loop keeps the number still to be unpacked, reads only payload bytes and never needs more than 18 bits. |
| `CrsfChannels.RepackRestores` | software/rpi/src/crsf_channels.cpp:3-33 | Packing the unpacked channels restores every payload. |
| `CrsfChannels.UnpackRestores` | software/rpi/src/crsf_channels.cpp:3-33 | Unpacking packed channels restores any sixteen 11-bit values. |

## Left out

- Vendor code (HAL, CMSIS, clocks, GPIO, timers, DMA, USART, interrupt vectors) and the port layers: operations that may succeed or fail.
- The Linux serial port and the frame sender and transmitter loops: only "sent" or "failed", and what was read, matter.
- The step from decoded frames to messages (payload codecs, ingress routing, frame builders): messages are datatypes, with an absent body for a payload of the wrong length; the heartbeat's uptime field is not part of them.
- byte_codec for signed, 32-bit and 64-bit words: the same shape as the 16-bit ones.
- Floating-point code (kinematics, speed estimation, velocity conversion, stick mixing), and the wheel speed sampling of the main loop, which nothing else reads; the feedforward, an integer conversion, has the configuration of main, and its failure branches for an invalid one are left out.
- The decoder's and receiver's diagnostic counters, NULL checks, and initialised flags that stay set once initialisation has succeeded.
- The unreachable default branches of the state switches, and the failure branch of motion_stop_begin in the manager, which needs operation id zero; the failure of the watchdog's refresh after an accepted command, which needs an uninitialised watchdog.
- Console output, sleeping in `run`, and the device path.
- The driver for the DRV8833, the Pi's motion coordinator with control and safety state, and the CRSF frame decoder with its CRC-8: simpler relatives of what is modelled.
- UartRxQueue.UartRxQueue.Push: the mask `& 255` is written as remainder modulo 256; the interrupt is atomic and its DMA buffer is not modelled.
- CrsfChannels.Decode: `|=`, `>>` and `&` on the accumulator are sum, quotient and remainder, equal because the invariant keeps the bits above it clear.
- FrameScanner.BurstIsRejected: corruption that hits magic, version or length bytes, or is longer than 16 bits, can be taken for other frames.
- Agreement.TwoPartyAgreement: safety only; that a session is eventually started over a line that keeps losing frames is not claimed.
- Firmware.Stm32.Pass: the poll of the receiver enters as its result (nothing, overflow or one decoded message); the receiver itself is proved apart.
- ClientRunner.RunClient: what one read delivers enters as any sequence of decoded messages, not as bytes.
- Robot.RunBoth: polls and passes alternate as wholes; the finer interleavings of their events are those of Agreement.TwoPartyAgreement. Frames a poll has read and does not hear are lost.
