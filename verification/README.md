# The LoRaSerial link protocol, modelled and proved in Dafny

LoRaSerial turns a lossy half-duplex LoRa radio into a serial cable: two or more
radios find each other, agree on counters, exchange numbered frames, hop together
through a table of channels and hand an ordered byte stream to their hosts. This
project models the firmware's link code (`Firmware/LoRaSerial`) and proves what
the protocol promises.

## Modules

| file | what it models |
|---|---|
| `Runs.dfy` | runs of a state machine, and what every step keeps |
| `Arq.dfy` | one session of the point-to-point protocol: two-bit numbers beside unbounded ones, over FIFO queues that lose frames and hold any number of copies |
| `P2pRadio.dfy` | the point-to-point states of `updateRadioState`: a transition function, and the class that performs it on the firmware's variables |
| `P2pSystem.dfy` | two such radios and the medium, from power-up through handshakes, data, link breaks and reboots |
| `LinkRuns.dfy` | runs of the two radios: everything works, or a HEARTBEAT loses a message |
| `EndToEnd.dfy` | the two radios with the buffers to and from their hosts |
| `VcCircuits.dfy` | the state of a virtual circuit, the `vcConnecting` map, link timeouts and bounded retries |
| `VcRadio.dfy` | the virtual-circuit states of `updateRadioState`: a transition function, and the class that performs it |
| `VcRuns.dfy` | runs of one virtual-circuit node, and when a message waiting for its ACK is given up |
| `VcDelivery.dfy` | data over one circuit since its numbers were zeroed, when messages may be given up |
| `VcHandshake.dfy` | two nodes that open, lose and reopen a circuit |
| `VcAddressTable.dfy` | circuit numbers for unique IDs, in RAM and EEPROM |
| `HeartbeatSchedule.dfy` | the virtual-circuit server's HEARTBEATs and its hop clock |
| `ChannelTimer.dfy` | `syncChannelTimer` and the hop-timer interrupt |
| `HopTable.dfy` | hop table generation, shuffle and hops in both directions |
| `CircularBuffer.dfy` | the wrapping byte buffers and the copies in and out of them |
| `SerialInput.dfy` | `processSerialInput` outside command mode |
| `CommandResponse.dfy` | splitting and recovering remote command responses |
| `Crc16.dfy`, `Whitening.dfy`, `Frame.dfy` | check sequence, whitening, and building and parsing frames |

Where the firmware changes variables in place, a class or an array method does so
here; its contract equates the new state with a function of the old one, and the
lemmas are about that function. `dafny verify dfyconfig.toml` checks everything.

## Assumptions of the model

- Outcomes of clock comparisons, `receiveInProcess`, `random` and attempts to
  transmit are parameters of a step, so the theorems hold for all of them. A
  refused transmission puts nothing on air, and a lost or refused frame is a loss.
- A radio that listens can lose any frame or receive an unusable one at any time.
  A radio has one buffer for received frames, so at most one waits unread; that
  nothing is transmitted meanwhile, and that two radios never have meaningful
  frames waiting for each other, is proved.
- In virtual-circuit mode a frame that is neither broadcast nor refused carries the
  number of the radio that takes it and comes from a radio with another number.
- "Session" means the period opened by one ZERO_ACKS transmission. Session numbers
  and unbounded message numbers are kept beside the radios; no radio reads them.
- In the timing modules the hop timer and the main loop are exact to the
  millisecond, and sends that are due succeed.

## Where the code falls short of its purpose

These are properties the code does not have on all inputs; for each the exact
condition is proved.

- A HEARTBEAT may be started while a DATA frame is unacknowledged. It takes the
  number of that frame and overwrites the saved copy. It can lose the data if and
  only if the peer has not taken them yet (`LinkRuns.HeartbeatLosesExactly`, and
  `Arq.HeartbeatLosesExactly` for any number of copies in flight). Without such
  HEARTBEATs the stream is reliable; with them the bytes delivered are those sent, in
  order and at most once, but for the messages replaced (`EndToEnd.SessionsWithGaps`).
- The acceptance test admits a frame that fills `serialTransmitBuffer`. If the host
  then takes nothing, head meets tail and the whole buffer is lost, although the
  frame is acknowledged; in every other case the stream to the host stays whole
  (`CircularBuffer.AcceptedFrameExactly`, `EndToEnd.StreamWholeExactly`).
  `commandRXBuffer` loses its content to every exact fit
  (`CircularBuffer.AcceptedCommandExactly`).
- `syncChannelTimer` is exact for every frame if and only if the dwell time is at
  most 32765 ms, although the setting admits 65535: 16-bit sums overflow beyond,
  and with 32768 the loop may not end (`ChannelTimer.DwellLimit`,
  `ChannelTimer.TerminatesExactly`).
- A reverse hop undoes a forward hop, and the multipoint scan visits all channels,
  if and only if there are at most 128 channels (`HopTable.ReverseUndoesForward`,
  `HopTable.ScanVisitsAll`): channel numbers are computed in 8 bits.
- The table of unique IDs survives a server's restart if and only if no ID is all
  0xFF (`VcAddressTable.RestartReproducesExactly`, `VcAddressTable.ErasedIdIsForgotten`).
- A server that answers a client without a number in the first milliseconds of a
  visit to channel 0 sets its HEARTBEAT timer anew. The HEARTBEAT that clients wait
  for 5 ms after the arrival is the visit's first if and only if nothing was answered
  before (`HeartbeatSchedule.ChannelZeroHeartbeat`); otherwise the answer takes its
  place, and none may follow (`HeartbeatSchedule.AnswerAtArrival`).
- One ACK timer serves all virtual circuits, and two tests do not ask whose message
  it is running for: `vcBreakLink` compares the broken circuit with the destination
  of the latest transmission, and a DATA_ACK stops the timer whoever sent it. The
  retransmissions of a message end, although its circuit stays up and its destination
  has not acknowledged, in exactly two cases (`VcRuns.DesertsExactly`). In the first,
  the latest transmission was an answer on another circuit that has since been silent
  for three heartbeat timeouts, the circuit of the message and the server have not,
  and the pass neither reaches the transmit priorities nor answers a frame; any pass
  that reaches them before repairs the comparison (`VcRuns.AlignedKeeps`). In the
  second, another node acknowledges, which on its circuit means a message given up
  before (`VcDelivery.StrayAckSource`). Runs from power-up do both
  (`VcRuns.MessageIsDeserted`, `VcRuns.StrayAckDeserts`).
- The next message to that node then goes out under the number of the one given up
  (`VcRuns.DesertedNumberStays`). It is lost for good, though acknowledged, if and
  only if the earlier one has been taken (`VcDelivery.MaskedExactly`,
  `VcDelivery.AcknowledgedAndLost`). Delivery is still ordered and at most once, and
  reliable while no number is used twice (`VcDelivery.AtMostOnceInOrder`,
  `VcDelivery.ReliableCircuit`).
- A command response is recovered if and only if its text has no 0x02 five bytes
  before a place where it is cut into frames (`CommandResponse.RecoversExactly`); for
  every frame size there is a text that has (`CommandResponse.TextIsTorn`).
- The CRC test refuses a frame only if both trailer bytes differ. An error in the
  data passes if and only if one byte of its syndrome is zero, and an error in one
  trailer byte always passes (`Crc16.AcceptedExactly`).
- The escape timeout in `processSerialInput` tests the space of the wrong buffer.
  That test turns out not to matter, because escape characters are held back only
  while there is room for them (`SerialInput.EscapeTransparency`).
- For a heartbeat timeout above 65531 ms the 16-bit interval may wrap to a few
  milliseconds. The channel-zero property holds nevertheless: the effect is an
  extra HEARTBEAT.

## Model

| member | source | states |
|---|---|---|
| `Arq.ValidateIsExact` | Firmware/LoRaSerial/Radio.ino:2358-2436 | Over a lossy FIFO medium with any number of copies in flight, the two-bit tests of `validateDatagram` accept a frame exactly when its unbounded number is the next one and there is room, and call it a duplicate exactly when it is the one before. |
| `Arq.AckIsExact` | Firmware/LoRaSerial/Radio.ino:2183-2217 | A DATA_ACK passes the two-bit test exactly when it acknowledges the outstanding message, and then the receiver has taken that message. |
| `Arq.StepInv` | Firmware/LoRaSerial/States.ino:671-1001 | Send, HEARTBEAT over a saved frame, retransmit, receive, refused transmit and loss all keep the session invariant s <= r <= s + 1 with its frame-by-frame consequences. |
| `Arq.RunInv` | Firmware/LoRaSerial/States.ino:671-1001 | The session invariant holds after every run of such steps. |
| `Arq.AtMostOnce` | Firmware/LoRaSerial/Radio.ino:2358-2436 | In every run the receiver is at most one number ahead of the sender, never behind, and took each number once, as the message first sent under it or the HEARTBEAT that replaced it. |
| `Arq.NoFalseAck` | Firmware/LoRaSerial/Radio.ino:2183-2217 | In every run `txAckNumber` changes exactly when the outstanding message, which the peer has already accepted, becomes acknowledged. |
| `Arq.InOrder` | Firmware/LoRaSerial/Radio.ino:2358-2436 | Accepted messages are the offered ones in order, without repeats. |
| `Arq.StepReplaces` | Firmware/LoRaSerial/States.ino:822-844 | A message is overwritten exactly by a HEARTBEAT started while a different message is unacknowledged. |
| `Arq.PoliteRun` | Firmware/LoRaSerial/States.ino:822-844 | A run that starts no such HEARTBEAT overwrites nothing. |
| `Arq.ReliableStream` | Firmware/LoRaSerial/Radio.ino:2358-2436 | In a run without such HEARTBEATs what was accepted is a prefix of what was sent, missing at most the last message. |
| `Arq.AcceptedGrows` | Firmware/LoRaSerial/Radio.ino:2398-2436 | Accepted messages are never revised. |
| `Arq.HeartbeatLosesExactly` | Firmware/LoRaSerial/States.ino:822-844 | A HEARTBEAT started in any reachable state over an unacknowledged message can lose it, so that no continuation delivers it, if and only if the peer has not taken it yet. |
| `Arq.TakenIsOutstanding` | Firmware/LoRaSerial/Radio.ino:2358-2436 | What the peer has taken under the outstanding number is the outstanding message, even after other numbers were overwritten. |
| `P2pRadio.UpdateHalfDuplex` | Firmware/LoRaSerial/Radio.ino:3050-3078 | No pass puts a frame on air while a received one is unread, and a listening radio has nothing on air. |
| `P2pRadio.OneMessageAPass` | Firmware/LoRaSerial/States.ino:671-1001 | A pass hands over at most one message, for which the acceptance test found room, and draws at most one, the data or command it was given. |
| `P2pRadio.P2pRadio.UpdateRadioState` | Firmware/LoRaSerial/States.ino:264-1001 | One pass over the firmware's variables is exactly one application of the transition function the theorems are about, in every point-to-point state. |
| `P2pRadio.P2pRadio.constructor` | Firmware/LoRaSerial/States.ino:91-150 | The radio starts in RADIO_RESET with zero counters and no ACK outstanding. |
| `P2pRadio.P2pRadio.ValidateDatagram` | Firmware/LoRaSerial/Radio.ino:2358-2436 | Verdict and counter update of the acceptance test, error cases included. |
| `P2pRadio.P2pRadio.TransmitDatagram` | Firmware/LoRaSerial/Radio.ino:3004-3209 | A refused transmission leaves nothing on air; one that starts records its time. |
| `P2pRadio.P2pRadio.TransmitThen` | Firmware/LoRaSerial/States.ino:333-343 | The state advances only when the transmission started. |
| `P2pRadio.P2pRadio.StartAckTimer` | Firmware/LoRaSerial/States.ino:35-44 | The timer value is never zero, which would mean that it is off. |
| `P2pRadio.P2pRadio.Break` | Firmware/LoRaSerial/States.ino:2894-2935 | A broken link stops the ACK timer and resets the radio. |
| `P2pRadio.P2pRadio.LinkIsUp` | Firmware/LoRaSerial/States.ino:2938-2973 | All three counters are zero and no ACK is outstanding when LINK_UP is entered. |
| `P2pRadio.P2pRadio.P2pSendAck` | Firmware/LoRaSerial/States.ino:19-33 | The ACK carries the number of the latest acceptance. |
| `P2pRadio.P2pRadio.ProcessReceived` | Firmware/LoRaSerial/States.ino:671-815 | What LINK_UP does with each kind of received frame. |
| `P2pRadio.P2pRadio.SendAndSave` | Firmware/LoRaSerial/States.ino:822-844 | A message goes out under the current number and is saved for retransmission even when the transmission was refused. |
| `P2pRadio.P2pRadio.ProcessTransmit` | Firmware/LoRaSerial/States.ino:816-1001 | Priority order HEARTBEAT, retransmission or link break, command, data. |
| `P2pRadio.P2pRadio.UpdateLinkDown` | Firmware/LoRaSerial/States.ino:264-345 | LINK_DOWN answers FIND_PARTNER and sends its own when it is due. |
| `P2pRadio.P2pRadio.UpdateWaitSyncClocks` | Firmware/LoRaSerial/States.ino:360-468 | WAIT_SYNC_CLOCKS answers with ZERO_ACKS, yields to a FIND_PARTNER, or times out. |
| `P2pRadio.P2pRadio.UpdateWaitZeroAcks` | Firmware/LoRaSerial/States.ino:485-556 | WAIT_ZERO_ACKS comes up on ZERO_ACKS or times out. |
| `P2pRadio.P2pRadio.UpdateLinkUp` | Firmware/LoRaSerial/States.ino:671-1001 | A LINK_UP pass receives or transmits, then checks the link timeout. |
| `P2pRadio.P2pRadio.TransmitDone` | Firmware/LoRaSerial/States.ino:637-668 | The end of a transmission leads back to listening. |
| `P2pRadio.P2pRadio.UpdateTransmitting` | Firmware/LoRaSerial/States.ino:347-358 | The four states that wait for the end of a transmission move on when it is reported, and come up after ZERO_ACKS. |
| `P2pRadio.P2pRadio.Reset` | Firmware/LoRaSerial/States.ino:91-150 | RADIO_RESET stops the ACK timer and leads to LINK_DOWN; an unread frame may survive it. |
| `P2pRadio.P2pRadio.FrameArrives` | Firmware/LoRaSerial/Radio.ino:753-770 | A received frame waits unread. |
| `P2pRadio.P2pRadio.TransmissionEnds` | Firmware/LoRaSerial/Radio.ino:753-770 | The end of a transmission is reported. |
| `P2pSystem.PassSimulates` | Firmware/LoRaSerial/States.ino:671-1001 | With two radios and a half-duplex medium, every LINK_UP pass that acts is exactly one step of the session protocol; the queues of that protocol are the frame unread and the frame on air. |
| `P2pSystem.MoveInv` | Firmware/LoRaSerial/States.ino:264-1001 | Passes of either radio, deliveries, losses, noise and reboots keep the two-radio invariant, handshake states and sessions together. |
| `P2pSystem.RunGood` | Firmware/LoRaSerial/States.ino:264-1001 | It holds after every run from power-up. |
| `P2pSystem.LinkAgreement` | Firmware/LoRaSerial/States.ino:264-569 | Whenever both radios are in LINK_UP, both last zeroed their counters in the same ZERO_ACKS exchange, the newest one, under loss, timeouts and resets of either side. |
| `P2pSystem.AtMostOnceDelivery` | Firmware/LoRaSerial/States.ino:671-1001 | In every run and every session, host and sender buffers hold exactly the session histories, delivered at most once and in order. |
| `P2pSystem.ReliableDelivery` | Firmware/LoRaSerial/States.ino:671-1001 | The same without overwriting HEARTBEATs: in each session the payloads handed over are a prefix of those cut from the buffers, missing at most the last. |
| `P2pSystem.RunGrows` | Firmware/LoRaSerial/States.ino:671-1001 | What was accepted in a session is never revised, in that session or later. |
| `P2pSystem.UpEffect` | Firmware/LoRaSerial/States.ino:671-1001 | A radio that comes up begins with a fresh end of the session; one that stays up logs exactly what its end gains. |
| `P2pSystem.PeerEffect` | Firmware/LoRaSerial/States.ino:264-569 | While a radio is up, no move of the other one changes its end or opens another session. |
| `P2pSystem.OpenInv` | Firmware/LoRaSerial/States.ino:410-434 | Answering SYNC_CLOCKS opens a session into which no frame of an older one can fall. |
| `P2pSystem.AirDoneInv` | Firmware/LoRaSerial/Radio.ino:3050-3078 | Delivery or loss of the frame on air keeps the invariant. |
| `P2pSystem.RebootInv` | Firmware/LoRaSerial/States.ino:91-150 | So does a reboot of either radio at any moment. |
| `P2pSystem.QuietPassInv` | Firmware/LoRaSerial/States.ino:264-569 | So does every pass that neither acts in LINK_UP nor opens a session. |
| `P2pSystem.MoveLogs` | Firmware/LoRaSerial/States.ino:671-1001 | What a host is given and what is drawn for sending always match the histories. |
| `EndToEnd.SessionsOfBytes` | Firmware/LoRaSerial/States.ino:671-1001 | For any kinds of messages the byte streams drawn and delivered fall into sessions; in each the bytes received are a prefix of the bytes sent. |
| `EndToEnd.HostToHost` | Firmware/LoRaSerial/States.ino:671-815 | Two radios with their host buffers, frames going into serialTransmitBuffer on the radio's own acceptance test: while a radio is up its host has read a prefix of the DATA and command responses the peer sent in this session, and the DATA sent are the beginning of what the peer's host typed, the rest waiting in the buffers. |
| `EndToEnd.DataStream` | Firmware/LoRaSerial/Serial.ino:28-152 | In a session without command responses one host reads a prefix of what the other has sent. |
| `EndToEnd.RunInv` | Firmware/LoRaSerial/States.ino:671-1001 | Buffers and session histories match along every run that overwrites no message and overfills no buffer. |
| `EndToEnd.SessionsWithGaps` | Firmware/LoRaSerial/States.ino:671-1001 | Along every run, HEARTBEATs that overwrite messages included: the bytes received in a session are those of the messages sent, in order and at most once, but for messages a HEARTBEAT replaced and at most the last one. |
| `EndToEnd.HostToHostWithGaps` | Firmware/LoRaSerial/States.ino:671-815 | The same for what the host has read and what waits for it, along every run that overfills no buffer. |
| `EndToEnd.StreamWholeExactly` | Firmware/LoRaSerial/Radio.ino:2390-2406 | The guard is exact: a move keeps the stream to the host whole if and only if it does not deliver an accepted frame that fills the buffer with nothing printed. |
| `LinkRuns.LinkComesUp` | Firmware/LoRaSerial/States.ino:264-569 | The handshake can succeed: a run from power-up brings both radios to LINK_UP. |
| `LinkRuns.DataGetsThrough` | Firmware/LoRaSerial/States.ino:671-1001 | And then any DATA frame is delivered and acknowledged. |
| `LinkRuns.HeartbeatLosesExactly` | Firmware/LoRaSerial/States.ino:822-844 | For two half-duplex radios that are up, in every reachable state: a HEARTBEAT over an unacknowledged message can lose it for good if and only if the peer has not taken it. |
| `LinkRuns.HeartbeatLosesData` | Firmware/LoRaSerial/States.ino:822-844 | A run from power-up reaches such a state with any DATA whose first transmission is not heard. |
| `VcRadio.VirtualCircuits.ChangeStateOf` | Firmware/LoRaSerial/States.ino:2990-3044 | Bit i of `vcConnecting` stays set exactly for circuits being connected; no other circuit and no other bit changes. |
| `VcRadio.VirtualCircuits.UpdateBit` | Firmware/LoRaSerial/States.ino:3031-3037 | The bit is set or cleared as told and all others stay. |
| `VcRadio.VirtualCircuits.constructor` | Firmware/LoRaSerial/States.ino:149-176 | A radio just switched on: all circuits down, but a server has itself alive as number 0, no message waits for an ACK, and the map is clear. |
| `VcRadio.VirtualCircuits.ZeroAcks` | Firmware/LoRaSerial/States.ino:3123-3131 | Only the three counters of that circuit are zeroed. |
| `VcRadio.VirtualCircuits.ReceiveUnknownAcks` | Firmware/LoRaSerial/States.ino:2044-2050 | UNKNOWN_ACKS leads to WAIT_ZERO_ACKS whether or not the reply was sent. |
| `VcRadio.VirtualCircuits.ReceiveSyncAcks` | Firmware/LoRaSerial/States.ino:2052-2061 | SYNC_ACKS connects only if the ZERO_ACKS reply was sent. |
| `VcRadio.VirtualCircuits.ReceiveZeroAcks` | Firmware/LoRaSerial/States.ino:2063-2068 | ZERO_ACKS zeroes the counters and connects. |
| `VcRadio.VirtualCircuits.Alive` | Firmware/LoRaSerial/States.ino:3108-3121 | A heard HEARTBEAT revives a circuit that was down, and no other. |
| `VcRadio.VirtualCircuits.ConnectCommand` | Firmware/LoRaSerial/Commands.ino:122-136 | The connect command starts the handshake of a live circuit, or connects a radio to itself. |
| `VcRadio.VirtualCircuits.BreakCircuit` | Firmware/LoRaSerial/States.ino:3070-3105 | Reserved addresses break nothing and the own circuit stays; the ACK timer stops if and only if the latest transmission went to the broken circuit. What that means for a message to another circuit is `VcRuns.BreakDesertsExactly`. |
| `VcRadio.VirtualCircuits.SweepCircuit` | Firmware/LoRaSerial/States.ino:2498-2515 | One round of the sweep breaks exactly a circuit that is not down and has expired or lost the server, and stops the ACK timer exactly if the latest transmission went there. |
| `VcRadio.VirtualCircuits.CheckLinkTimeouts` | Firmware/LoRaSerial/States.ino:2491-2517 | The whole sweep over circuits, state and ACK timer; on a client that lost its server every circuit but its own is LINK_DOWN with its bit clear. What the sweep does to a message is `VcRuns.SweepDesertsExactly`. |
| `VcRadio.VirtualCircuits.AwaitAck` | Firmware/LoRaSerial/States.ino:2209-2277 | One pass with an outstanding ACK: stop, retransmit, or give up, and nothing else changes; seen from the message it is one pass of the bounded-retry theorems. |
| `VcRadio.VirtualCircuits.GiveUp` | Firmware/LoRaSerial/States.ino:2267-2275 | Used-up retries ask for a new connection, break the link and stop the timer. |
| `VcRadio.VirtualCircuits.TransmitDatagram` | Firmware/LoRaSerial/Radio.ino:2452-2474 | The destination is noted before the frame can be refused, and a frame to a circuit that is down is refused (lines 3050-3062). |
| `VcRadio.VirtualCircuits.SendAndSave` | Firmware/LoRaSerial/States.ino:2292-2302 | A message that needs an ACK is saved, timed and its destination remembered even when its transmission was refused. |
| `VcRadio.VirtualCircuits.DriveHandshake` | Firmware/LoRaSerial/States.ino:2305-2363 | Only the first circuit being connected takes a step, which the search over the bits of the map finds. |
| `VcRadio.VirtualCircuits.SendHostMessage` | Firmware/LoRaSerial/Serial.ino:598-735 | Data and remote commands go only to connected circuits of other nodes; a message that is too long breaks the link of its destination. |
| `VcRadio.VirtualCircuits.TransmitPending` | Firmware/LoRaSerial/States.ino:2184-2487 | The transmit priorities: HEARTBEAT, outstanding ACK, command response, handshake, host message; at most one of them acts. |
| `VcRadio.VirtualCircuits.ReceiveHeartbeat` | Firmware/LoRaSerial/States.ino:3207-3248 | A HEARTBEAT revives one circuit, gives a client its number once, and is answered by a server if it came without a number. |
| `VcRadio.VirtualCircuits.ProcessFrame` | Firmware/LoRaSerial/States.ino:1979-2180 | What each kind of received frame does to its circuit, the ACK timer and the noted destination. |
| `VcRadio.VirtualCircuits.ReceiveFrame` | Firmware/LoRaSerial/States.ino:1971-2180 | Numbers, traffic time and effect of a received frame, in this order. |
| `VcRadio.VirtualCircuits.WaitReceivePass` | Firmware/LoRaSerial/States.ino:1962-2518 | A pass of RADIO_VC_WAIT_RECEIVE is one application of the function the run theorems are about, the sweep included. |
| `VcRadio.VirtualCircuits.WaitTxDonePass` | Firmware/LoRaSerial/States.ino:1929-1951 | After a transmission the radio listens, or waits for the server if that circuit is down. |
| `VcRadio.VirtualCircuits.WaitServerPass` | Firmware/LoRaSerial/States.ino:1880-1926 | Only a HEARTBEAT of the server ends the wait for it. |
| `VcRuns.MoveInv` | Firmware/LoRaSerial/States.ino:1880-2518 | Every move of a node keeps: only messages to other nodes wait for an ACK, and without a number of its own a radio is connected to none. |
| `VcRuns.ReachableInv` | Firmware/LoRaSerial/States.ino:1880-2518 | So does every run from power-up, of servers and clients. |
| `VcRuns.BreakDesertsExactly` | Firmware/LoRaSerial/States.ino:3070-3105 | Breaking one circuit ends the retransmissions of a message whose circuit stays up if and only if the latest transmission, but not the message, went to the broken circuit. |
| `VcRuns.SweepDesertsExactly` | Firmware/LoRaSerial/States.ino:2491-2517 | For every state: the sweep does so if and only if it breaks the circuit of the latest transmission and not that of the message. |
| `VcRuns.DesertsExactly` | Firmware/LoRaSerial/States.ino:1880-2518 | For every move of every run: the retransmissions of a message end although its circuit stays up and its destination has not acknowledged, in exactly two cases. Either the move is a pass that reaches no transmit priority and answers no frame, the latest transmission was an answer on another circuit that is up but has been silent for more than three heartbeat timeouts, and neither the circuit of the message nor the server has; or another node sends a DATA_ACK that passes the test of its own circuit, and the circuit of the message and the server are not silent. |
| `VcRuns.AlignedKeeps` | Firmware/LoRaSerial/States.ino:2184-2277 | A pass that reaches the transmit priorities restores the message's destination, or all, as the noted one, and only an answer to another circuit changes that; while it holds, such a message is given up if and only if another node acknowledges and the circuit of the message and the server are not silent. |
| `VcRuns.MessageIsDeserted` | Firmware/LoRaSerial/States.ino:2491-2517 | Such a run, from power-up: a server sends data to node 1, answers data of node 2, hears node 1, and a long reception later gives up the message to node 1 because node 2 is silent. |
| `VcRuns.StrayAckDeserts` | Firmware/LoRaSerial/States.ino:2026-2030 | The other run, from power-up: a message to node 2 is given up, data go to node 1, and the late DATA_ACK of node 2 ends their retransmissions. |
| `VcRuns.DesertedNumberStays` | Firmware/LoRaSerial/Radio.ino:2183-2208 | The number of the circuit of a message given up so has not moved on, unless the pass zeroed it, so the next message there goes out under the same number. |
| `VcDelivery.MoveInv` | Firmware/LoRaSerial/Radio.ino:2183-2436 | One direction of a circuit since its numbers were zeroed: sending, retransmitting, giving up, reading data and ACKs and losing them keep what relates the two-bit numbers at both ends to unbounded ones. |
| `VcDelivery.CopyIsExact` | Firmware/LoRaSerial/Radio.ino:2358-2436 | The two-bit tests of `validateDatagram` accept exactly the next number and call exactly the one before a duplicate, whatever was given up. |
| `VcDelivery.AckIsExact` | Firmware/LoRaSerial/Radio.ino:2183-2208 | A DATA_ACK passes exactly for the newest number, and then the receiver has taken a message under it. |
| `VcDelivery.AtMostOnceInOrder` | Firmware/LoRaSerial/Radio.ino:2358-2436 | In every run, messages given up included: what was taken are messages sent, in order, each at most once, one under each number, and the receiver is at most one number ahead. |
| `VcDelivery.ReliableCircuit` | Firmware/LoRaSerial/States.ino:2391-2410 | In a run that sends no message under a number already used, what was taken is a prefix of what was sent, missing at most the last message. |
| `VcDelivery.StrayAckSource` | Firmware/LoRaSerial/States.ino:2026-2030 | A DATA_ACK that passes while nothing waits on its circuit belongs to a message that was given up, and one was taken under its number. |
| `VcDelivery.MaskedExactly` | Firmware/LoRaSerial/Radio.ino:2358-2436 | In every reachable state the message waiting for its ACK can never be taken any more if and only if an earlier message, given up under the same number, has been taken. |
| `VcDelivery.AcknowledgedAndLost` | Firmware/LoRaSerial/Radio.ino:2358-2436 | A run in which that happens: the second of two messages is acknowledged and lost. |
| `VcCircuits.RaisedBit` | Firmware/LoRaSerial/States.ino:3030-3037 | Setting a bit of the map changes no other bit. |
| `VcCircuits.LoweredBit` | Firmware/LoRaSerial/States.ino:3030-3037 | Nor does clearing one. |
| `VcCircuits.RetryIsBounded` | Firmware/LoRaSerial/States.ino:2209-2277 | With maxResends m > 0 and no ACK there are exactly as many attempts as due passes, up to m, and the next due pass stops the timer and breaks the link. |
| `VcCircuits.UnlimitedRetry` | Firmware/LoRaSerial/States.ino:2228-2228 | With maxResends 0 the radio retries forever. |
| `VcHandshake.MoveInv` | Firmware/LoRaSerial/States.ino:2044-2068 | Every move of two nodes keeps the handshake invariant. |
| `VcHandshake.RunInv` | Firmware/LoRaSerial/States.ino:2308-2368 | So does every run. |
| `VcHandshake.CircuitAgreement` | Firmware/LoRaSerial/States.ino:2044-2068 | In every reachable state two nodes CONNECTED to each other last zeroed their counters with the same ZERO_ACKS frame, under loss, repeated frames, simultaneous opening, link drops and reboots. |
| `VcHandshake.PendingSyncMeansUnconnected` | Firmware/LoRaSerial/States.ino:2347-2362 | A node whose SYNC_ACKS is still on air or unread is not CONNECTED. |
| `VcHandshake.CircuitConnects` | Firmware/LoRaSerial/States.ino:2308-2368 | A run exists that connects both nodes. |
| `VcAddressTable.AddressTable.IdToAddressByte` | Firmware/LoRaSerial/States.ino:3134-3205 | Known ID: its number and no change; unknown: -1, -2, -3 or the assigned number exactly in the cases of the code, and the table and EEPROM after it. |
| `VcAddressTable.AddressTable.SaveUniqueId` | Firmware/LoRaSerial/NVM.ino:171-186 | RAM entry and EEPROM slot get the ID; no other slot and nothing below the ID area changes. |
| `VcAddressTable.AddressTable.PutId` | Firmware/LoRaSerial/NVM.ino:103-106 | Slots do not overlap. |
| `VcAddressTable.AddressTable.EraseUniqueId` | Firmware/LoRaSerial/NVM.ino:109-124 | The slot is erased and the entry invalid. |
| `VcAddressTable.AddressTable.IsVcUniqueIdSet` | Firmware/LoRaSerial/NVM.ino:138-150 | True exactly when some byte differs from the erase value. |
| `VcAddressTable.AddressTable.LoadVcUniqueId` | Firmware/LoRaSerial/NVM.ino:153-168 | An entry is loaded exactly when its slot is set. |
| `VcAddressTable.AddressTable.SetServer` | Firmware/LoRaSerial/Commands.ino:1104-1124 | When a client is told to become a server, every set slot but the first is erased in RAM and EEPROM and the first gets the own ID; otherwise nothing changes. |
| `VcAddressTable.AddressTable.RestoreDefaults` | Firmware/LoRaSerial/Commands.ino:132-145 | All 32 numbers are free again, in RAM and EEPROM. |
| `VcAddressTable.AddressTable.constructor` | Firmware/LoRaSerial/LoRaSerial.ino:629-635 | Boot: blank RAM, reloaded from EEPROM on a server only. |
| `VcAddressTable.StepInv` | Firmware/LoRaSerial/States.ino:3134-3205 | Distinct IDs and saved IDs survive every lookup, erase, change of the server setting and restart, and whoever is, is about to become, or would boot as a server has nothing else in EEPROM. |
| `VcAddressTable.RunInv` | Firmware/LoRaSerial/States.ino:3134-3205 | And so every run from an erased radio, with changes between client and server in both directions. |
| `VcAddressTable.NumbersAreUnique` | Firmware/LoRaSerial/States.ino:3134-3205 | Entries in use have pairwise distinct IDs. |
| `VcAddressTable.AssignedKeepsNumber` | Firmware/LoRaSerial/States.ino:3134-3205 | An assigned ID keeps its number over every run that does not erase it or turn a client into a server, server restarts included, and every later lookup answers it. |
| `VcAddressTable.FullTableExactly` | Firmware/LoRaSerial/States.ino:3163-3181 | -2 is answered if and only if an unassigned unknown radio asks the server and all 32 numbers are taken; a number is answered if and only if the table then holds the ID under it. |
| `VcAddressTable.RestartReproducesExactly` | Firmware/LoRaSerial/NVM.ino:153-168 | Whenever a radio would boot as a server, the boot reproduces the table if and only if no ID in use is all 0xFF. |
| `VcAddressTable.ErasedIdIsForgotten` | Firmware/LoRaSerial/NVM.ino:138-150 | A run in which a new server assigns such an ID number 1, and a restart that forgets it. |
| `VcAddressTable.ClientCopyMayRepeat` | Firmware/LoRaSerial/States.ino:3199-3205 | A run in which a client's EEPROM comes to hold one ID twice. |
| `VcAddressTable.RewriteForgetsCopies` | Firmware/LoRaSerial/Commands.ino:1104-1124 | The rewrite on the change to server makes that harmless: whatever the EEPROM held, a boot as server then starts with the own ID alone. |
| `HeartbeatSchedule.MSecToChannelZeroIsArrival` | Firmware/LoRaSerial/Radio.ino:604-617 | `mSecToChannelZero` is the time at which the hop sequence next arrives in channel 0, and it does not arrive earlier. |
| `HeartbeatSchedule.Advance` | Firmware/LoRaSerial/Radio.ino:585-601 | Each millisecond moves the position in the hop cycle on by one. |
| `HeartbeatSchedule.TickInv` | Firmware/LoRaSerial/Radio.ino:3556-3608 | Each millisecond keeps the schedule, for every random delay and whether or not a client without a number is answered in it; the timer runs out exactly when a HEARTBEAT is due. |
| `HeartbeatSchedule.ChannelZeroHeartbeat` | Firmware/LoRaSerial/Radio.ino:3556-3608 | Each visit to channel 0 has a HEARTBEAT started in channel 0 by its fifth millisecond; the first starts exactly then if and only if no client without a number was answered earlier in the visit; for every choice of random delays and answers, all dwell times from 6 ms, timeouts from 2 ms and any clock reading at reset. |
| `HeartbeatSchedule.TimerAtFive` | Firmware/LoRaSerial/States.ino:3241-3247 | For timeouts from 12 to 65531 ms the timer itself runs out in the fifth millisecond of a visit if and only if no client without a number was answered earlier in it. |
| `HeartbeatSchedule.AnswerAtArrival` | Firmware/LoRaSerial/States.ino:3241-3247 | A run in which a client is answered at the arrival, and no HEARTBEAT starts in the next 5 ms. |
| `HeartbeatSchedule.HeartbeatGap` | Firmware/LoRaSerial/States.ino:2189-2203 | From any moment the next HEARTBEAT starts within heartbeatTimeout + 4 ms, for every pattern of answers. |
| `HeartbeatSchedule.VcServer.SetVcHeartbeatTimer` | Firmware/LoRaSerial/Radio.ino:3556-3608 | The timer restarts now and the interval is the random, halved or remaining one, stored in 16 bits, of the schedule theorems. |
| `HeartbeatSchedule.VcServer.MSecToZero` | Firmware/LoRaSerial/Radio.ino:604-617 | The loop-free sum over the remaining channels, modulo 2^32, is the one the arrival theorem is about. |
| `HeartbeatSchedule.VcServer.Millisecond` | Firmware/LoRaSerial/States.ino:2189-2203 | One millisecond, with or without an answer to a client without a number, is one step of the schedule, and a HEARTBEAT starts exactly when that step says so. |
| `HeartbeatSchedule.VcServer.constructor` | Firmware/LoRaSerial/States.ino:149-176 | The server resets in channel 0 with the hop timer started and the first HEARTBEAT sent. |
| `ChannelTimer.PhaseLock` | Firmware/LoRaSerial/Radio.ino:3339-3473 | For a dwell of at most 32765 ms every later firing of the local timer is at an instant at which the remote timer fires. |
| `ChannelTimer.DwellLimit` | Firmware/LoRaSerial/Radio.ino:3442-3450 | All admissible frames give an interval in (0, dwell + 2] that points at a remote hop if and only if the dwell is at most 32765 ms. |
| `ChannelTimer.SyncExactly` | Firmware/LoRaSerial/Radio.ino:3442-3450 | For one call: if and only if the 16-bit sum does not overflow. |
| `ChannelTimer.TerminatesExactly` | Firmware/LoRaSerial/Radio.ino:3445-3447 | The adjustment loop ends if and only if the dwell is not 32768 or the start value is neither 0 nor -32768. |
| `ChannelTimer.OverflowMisses` | Firmware/LoRaSerial/Radio.ino:3442-3447 | The overflowing sums end off the remote hops. |
| `ChannelTimer.LargeDwellMisses` | Firmware/LoRaSerial/Radio.ino:3442-3447 | No dwell of 32768 or more can be synchronised with a remote that hops now. |
| `ChannelTimer.FiringInstants` | Firmware/LoRaSerial/Begin.ino:93-112 | With the reload in the interrupt the k-th firing is k dwells after the first. |
| `ChannelTimer.HopTimer.SyncChannelTimer` | Firmware/LoRaSerial/Radio.ino:3339-3473 | For every frame on which the loop ends, the interval loaded is the one the 16-bit sum and loop give, counted from now, and the interrupt will restore the dwell. |
| `ChannelTimer.HopTimer.ChannelTimerHandler` | Firmware/LoRaSerial/Begin.ino:93-112 | The interrupt restarts the count at the firing and restores the full dwell exactly when a synchronisation asked for it. |
| `ChannelTimer.HopTimer.constructor` | Firmware/LoRaSerial/Radio.ino:3214-3236 | A timer started with the full dwell needs no reload. |
| `HopTable.TableIsPermutation` | Firmware/LoRaSerial/Radio.ino:551-569 | For every seed the shuffled table holds each evenly spaced channel once, distinct and inside the band. |
| `HopTable.EvenSpacing` | Firmware/LoRaSerial/Radio.ino:450-463 | Unshuffled neighbours are one spacing apart. |
| `HopTable.Radio.GenerateHopTable` | Firmware/LoRaSerial/Radio.ino:450-463 | The table depends on band, number of channels and seed only. |
| `HopTable.Radio.Shuffle` | Firmware/LoRaSerial/Radio.ino:551-562 | The in-place loop is the exchange of each element with its drawn partner, and leaves the generator where that many draws do. |
| `HopTable.Radio.MyRand` | Firmware/LoRaSerial/Radio.ino:567-571 | Result and new state are the shifted register with its feedback bit. |
| `HopTable.RandIsReversible` | Firmware/LoRaSerial/Radio.ino:567-571 | The generator loses no state; 0 is a cycle of its own. |
| `HopTable.ReverseUndoesForward` | Firmware/LoRaSerial/Radio.ino:585-597 | A reverse hop undoes a forward hop, and the other way round, on every channel if and only if there are at most 128 channels. |
| `HopTable.ScanVisitsAll` | Firmware/LoRaSerial/States.ino:1199-1201 | The reverse scan visits every channel exactly once in one round if and only if there are at most 128 channels. |
| `HopTable.ScanMisses` | Firmware/LoRaSerial/Radio.ino:585-597 | With more channels it never reaches the last but one. |
| `HopTable.Radio.HopChannel` | Firmware/LoRaSerial/Radio.ino:585-597 | The new channel in both directions, including the cases in which the 8-bit sum wraps. |
| `CircularBuffer.Ring.Append` | Firmware/LoRaSerial/Serial.ino:37-58 | Append up to the capacity; when bytes fill or overrun the buffer exactly the first `size` bytes of queue and input are lost. |
| `CircularBuffer.Ring.SerialBufferOutput` | Firmware/LoRaSerial/Serial.ino:37-58 | How much is printed first, as a function of room, frame and what the host takes, and the queue afterwards. |
| `CircularBuffer.Ring.OutputSerialData` | Firmware/LoRaSerial/Serial.ino:562-584 | Draining hands over the oldest bytes in order. |
| `CircularBuffer.Ring.ReceiveSerial` | Firmware/LoRaSerial/Serial.ino:311-330 | Received bytes are appended and head never reaches tail. |
| `CircularBuffer.Ring.Push` | Firmware/LoRaSerial/Serial.ino:60-77 | One byte is appended; the push that fills the buffer empties it. |
| `CircularBuffer.Ring.Pop` | Firmware/LoRaSerial/Serial.ino:409-410 | The oldest byte is returned and removed. |
| `CircularBuffer.Ring.Peek` | Firmware/LoRaSerial/Serial.ino:273-288 | The n-th byte from the tail, around the end of the array, is the n-th of the queue. |
| `CircularBuffer.Ring.Take` | Firmware/LoRaSerial/Serial.ino:131-152 | The one- or two-piece copy moves the oldest bytes into the frame and changes nothing else of it. |
| `CircularBuffer.Ring.ReadyOutgoingPacket` | Firmware/LoRaSerial/Serial.ino:131-152 | The oldest bytes, at most one payload of them, move behind the header, and only they leave the queue. |
| `CircularBuffer.Ring.AvailableBytes` | Firmware/LoRaSerial/Serial.ino:5-11 | The four byte counts are the length of the queue. |
| `CircularBuffer.Ring.constructor` | Firmware/LoRaSerial/LoRaSerial.ino:200-211 | Buffers start empty. |
| `CircularBuffer.Stored` | Firmware/LoRaSerial/Serial.ino:44-57 | Cells written from head on are the queue extended. |
| `CircularBuffer.Removed` | Firmware/LoRaSerial/Serial.ino:139-150 | Moving the tail on drops the oldest bytes and no others. |
| `CircularBuffer.FirstInFirstOut` | Firmware/LoRaSerial/Serial.ino:28-152 | Over any traffic, taken then waiting is given as long as every input leaves a free cell, and the first input that does not breaks it. |
| `CircularBuffer.ThroughExactly` | Firmware/LoRaSerial/Serial.ino:28-152 | One input or output keeps the stream whole if and only if an input leaves a free cell. |
| `CircularBuffer.AcceptedFrameExactly` | Firmware/LoRaSerial/Radio.ino:2390-2406 | A frame the acceptance test admits leaves the stream to the host whole if and only if it is not an exact fit with nothing printed; then the whole buffer is lost. |
| `CircularBuffer.ExactFitOfFrame` | Firmware/LoRaSerial/Radio.ino:2390-2406 | For frames shorter than the buffer the only such case is an exact fit with a host that takes nothing. |
| `CircularBuffer.ShortFramesOverfill` | Firmware/LoRaSerial/Serial.ino:37-58 | Seventeen accepted frames of at most 255 bytes that lose all 4096 bytes while CTS is held off. |
| `CircularBuffer.AcceptedCommandExactly` | Firmware/LoRaSerial/States.ino:766-779 | A command the acceptance test admits is kept in commandRXBuffer if and only if a cell stays free. |
| `SerialInput.EscapeTransparency` | Firmware/LoRaSerial/Serial.ino:393-546 | Over all arrivals, timeouts and drains: bytes given to the radio, waiting and held back are the host's bytes less each +++ that entered command mode; the buffer never fills; escapes are held back only while 4 cells are free. |
| `SerialInput.OnlyEscapesAreDropped` | Firmware/LoRaSerial/Serial.ino:483-508 | Only three escape characters together are ever dropped, on entry to command mode. |
| `SerialInput.StepInv` | Firmware/LoRaSerial/Serial.ino:393-546 | Each event keeps that. |
| `SerialInput.SerialPort.ProcessSerialInput` | Firmware/LoRaSerial/Serial.ino:393-546 | The whole function outside command mode: the loop, then replay exactly when the timeout has passed and the space test holds. |
| `SerialInput.SerialPort.ProcessBytes` | Firmware/LoRaSerial/Serial.ino:400-530 | The loop consumes a prefix of what waits, byte by byte as specified, and stops only for an empty or full buffer, command mode, or a completed radio transaction. |
| `SerialInput.SerialPort.ProcessByte` | Firmware/LoRaSerial/Serial.ino:484-529 | One waiting byte leaves the receive buffer and is held back, enters command mode, or goes out after what was held back; nothing is lost. |
| `SerialInput.SerialPort.HoldEscape` | Firmware/LoRaSerial/Serial.ino:486-508 | An escape character is held back or enters command mode. |
| `SerialInput.SerialPort.PushOrdinary` | Firmware/LoRaSerial/Serial.ino:511-528 | An ordinary byte follows the escape characters held back. |
| `SerialInput.SerialPort.ReplayEscapes` | Firmware/LoRaSerial/Serial.ino:516-522 | All escape characters held back go out, in the room the invariant guarantees, and none stays. |
| `SerialInput.SerialPort.constructor` | Firmware/LoRaSerial/LoRaSerial.ino:195-228 | Both buffers empty and nothing held back at power-up. |
| `CommandResponse.MessageIsNeverSplit` | Firmware/LoRaSerial/Serial.ino:218-288 | For a response of any length the pieces concatenate to it, each fits, and the command-complete message is whole in the last one. |
| `CommandResponse.RecoversExactly` | Firmware/LoRaSerial/States.ino:2116-2169 | The receiver recovers text and message if and only if the text has no 0x02 five bytes before a place where it is cut, the places being a function of the text. |
| `CommandResponse.TextIsTorn` | Firmware/LoRaSerial/States.ino:2116-2169 | For every frame size there is a text that is not recovered: its last five bytes in the first frame are taken for a message. |
| `CommandResponse.PlainTextRecovers` | Firmware/LoRaSerial/States.ino:2116-2169 | So it does for every text without 0x02. |
| `CommandResponse.DeliverExactly` | Firmware/LoRaSerial/States.ino:2116-2169 | Otherwise the host is given at least two messages. |
| `CommandResponse.ResponseQueue.ReadyOutgoingCommandPacket` | Firmware/LoRaSerial/Serial.ino:218-288 | The piece taken off the queue stands in the frame behind the headers, has the length the splitting theorems are about, and fits. |
| `CommandResponse.ResponseQueue.SearchStart` | Firmware/LoRaSerial/Serial.ino:251-260 | The search loop finds the first start byte of its window. |
| `CommandResponse.ResponseQueue.constructor` | Firmware/LoRaSerial/LoRaSerial.ino:220-220 | The queue starts empty. |
| `Crc16.TableEntryIsRemainder` | Firmware/LoRaSerial/Radio.ino:800-834 | Each of the 256 table entries is index times x^16 modulo x^16 + x^12 + x^5 + 1 (section 2 of ITU-T V.41). |
| `Crc16.TableStepIsBitStep` | Firmware/LoRaSerial/Radio.ino:2835-2837 | One table step is eight bit-serial division steps, for every register and byte. |
| `Crc16.TableCrcIsBitCrc` | Firmware/LoRaSerial/Radio.ino:2835-2837 | The table loop equals bitwise division for every byte string. |
| `Crc16.CrcIsPolynomialRemainder` | Firmware/LoRaSerial/Radio.ino:2827-2840 | The check sequence is x^16 times the message polynomial plus the preset times x^(8n), modulo the generator. |
| `Crc16.ResidueIsZero` | Firmware/LoRaSerial/Radio.ino:1889-1899 | The loop over data and trailer gives 0. |
| `Crc16.AcceptedExactly` | Firmware/LoRaSerial/Radio.ino:1889-1903 | A frame with any flipped data and trailer bits is accepted if and only if one of the trailer errors is the matching byte of the syndrome, x^16 times the data error modulo the generator, whatever the data was. |
| `Crc16.DataErrorRefusedExactly` | Firmware/LoRaSerial/Radio.ino:1902-1903 | With the trailer intact a data error is refused if and only if both bytes of its syndrome are nonzero. |
| `Crc16.TrailerErrorAcceptedExactly` | Firmware/LoRaSerial/Radio.ino:1902-1903 | With the data intact every error confined to one trailer byte passes, and no other. |
| `Crc16.LastByteErrorPasses` | Firmware/LoRaSerial/Radio.ino:1902-1903 | A concrete error in one data byte that passes in every frame. |
| `Crc16.CrcOfCorrupted` | Firmware/LoRaSerial/Radio.ino:2827-2840 | The check sequence of corrupted data differs from that of the data by the syndrome of the error alone. |
| `Crc16.ComputeCrc` | Firmware/LoRaSerial/Radio.ino:2833-2837 | The loop computes the check sequence of the first `size` bytes. |
| `Whitening.RadioComputeWhitening` | Firmware/LoRaSerial/System.ino:391-410 | The in-place loops combine byte j with the register after 8 j steps and touch nothing beyond the size. |
| `Whitening.WhiteningIsInvolution` | Firmware/LoRaSerial/System.ino:391-410 | Whitening twice gives the frame back. |
| `Whitening.KeyStaysOn` | Firmware/LoRaSerial/System.ino:391-410 | The key register never reaches the all-zero state. |
| `Frame.FrameRoundTrip` | Firmware/LoRaSerial/Radio.ino:2574-2919 | For every combination of net ID, hopping, CRC, whitening and encryption, parsing what was built returns type, ACK number, yield bit, hop time and payload, or the verdict on the ignore bit or virtual-circuit header. |
| `Frame.PayloadFits` | Firmware/LoRaSerial/States.ino:2525-2554 | A frame has at most 255 bytes if and only if its payload has at most `maxDatagramSize`. |
| `Frame.OtherNetwork` | Firmware/LoRaSerial/Radio.ino:1854-1885 | A radio with another net ID refuses the frame. |
| `Frame.UnpackPack` | Firmware/LoRaSerial/Radio.ino:1938-1941 | The control byte keeps its four fields. |
| `Frame.TrailerPasses` | Firmware/LoRaSerial/Radio.ino:1888-1928 | An intact trailer is accepted. |
| `Frame.TransmitDatagram` | Firmware/LoRaSerial/Radio.ino:2574-2919 | The frame in `outgoingPacket` is the one specified, and fits. |
| `Frame.RcvDatagram` | Firmware/LoRaSerial/Radio.ino:1782-2172 | The result for every buffer content, error cases included. |
| `Frame.WriteHeader` | Firmware/LoRaSerial/Radio.ino:2604-2720 | Net ID, control byte and hop time stand in front, and the payload stays where it is. |
| `Frame.WriteTrailer` | Firmware/LoRaSerial/Radio.ino:2822-2841 | The trailer is the check sequence of all bytes before it, high byte first, or absent. |
| `Frame.CheckTrailer` | Firmware/LoRaSerial/Radio.ino:1888-1928 | True exactly when both bytes differ from the check sequence of the bytes before them. |

## Left out

- P2pRadio.P2pRadio.UpdateRadioState: timeouts and back-off times are event flags, not computed from air times; whether another retransmission is allowed is such a flag, because RESTORE_TX_BUFFER resets the count it is compared with.
- P2pSystem.LinkAgreement: agreement on the session, not on the channel number after the handshake, nor on which radio sources the clock.
- EndToEnd.HostToHost: speaks of a radio while it is up; what `breakLink` prints of a session that ends is not followed. Echo, command output and debug text, which share serialTransmitBuffer, are not modelled.
- P2pRadio.P2pRadio.TransmitDatagram: the reasons to refuse a transmission other than an unread frame are an event flag.
- VcRadio.VirtualCircuits.AwaitAck: `vc` at line 2271 of `States.ino` is read as the destination's circuit. That the destination is a circuit of another node, and not a broadcast, is its precondition, which every run meets (`VcRuns.ReachableInv`).
- VcRadio.VirtualCircuits.BreakCircuit: linkFailures, messages to the PC and the flushing of serial buffers are not modelled.
- VcRadio.VirtualCircuits.WaitReceivePass: timeout comparisons and the host's messages are parameters; a transmission the radio chip refuses with an error code is not followed.
- VcRadio.VirtualCircuits.SendHostMessage: a message the host sends to its own radio, and messages with invalid addresses, which are discarded, change nothing modelled and are not told apart.
- VcRuns.DesertsExactly: runs from power-up up to a reset; of the commands only the one that connects is a move. The command that breaks all circuits ends in a reset.
- VcDelivery.AtMostOnceInOrder: one direction of one circuit, from a zeroing of its numbers with nothing waiting and nothing under way; why a message is given up is left to `VcRuns`, and giving up is possible at any time. The frames of a radio's other circuits are not followed.
- VcHandshake.CircuitAgreement: two nodes and the circuit between them; the order of the transmit priorities and the rule to work on one connection at a time allow fewer runs than the model does.
- VcAddressTable.RunInv: a radio's own ID is taken not to be all 0xFF; training writes to the ID table (lines 1729-1736 of `States.ino`), which skip the lookup, are not among the operations.
- HeartbeatSchedule.ChannelZeroHeartbeat: dwell times above 32767 ms pass through an int16 on their way to the hardware timer; the model takes the interval in `channelTimerMsec`.
- ChannelTimer.HopTimer.SyncChannelTimer: calls whose adjustment loop never ends are excluded by its precondition, which is exactly the condition of `ChannelTimer.TerminatesExactly`.
- ChannelTimer.PhaseLock: phase only; the channel number after `delayedHopCount` is a heuristic and is not modelled.
- HopTable.TableIsPermutation: frequencies are reals; rounding to float is not modelled. The sum of settings that seeds the generator is a parameter.
- CircularBuffer.Ring.SerialBufferOutput: data no longer than the buffer, which every frame is.
- SerialInput.SerialPort.ProcessSerialInput: echo and the bytes of command mode are not modelled.
- CommandResponse.RecoversExactly: pieces arrive in order and once, as the link delivers them; the frame must have room for 15 bytes, and all header combinations leave at least 245.
- Frame.RcvDatagram: failed reads from the radio chip, and the test `datagramType >= MAX_DATAGRAM_TYPE` at line 1948 of `Radio.ino`, which four bits cannot meet, are not among the results.
- HeartbeatSchedule.TimerAtFive: below 12 ms, which the command does not admit, and above 65531 ms, where the interval may wrap, only the visit's first HEARTBEAT is characterised.
- Frame.FrameRoundTrip: spread factors above 6; with 6, short frame types are cut below their payload. AES-GCM is any length-preserving invertible function.
- Exactly-once delivery across a virtual-circuit handshake: a saved frame keeps its old number after the counters are zeroed.
- Termination of `vcProcessSerialInput` on a message with a short length, whose branch does not advance; host messages in virtual-circuit mode in general.
- Multipoint mode apart from the hop scan, and training.
- RadioLib, pins, LEDs, watchdog, AT command tables, settings and debug output.
