# Cubic: verified model of the protocol and session core

Cubic is a Minecraft Java client written in Rust. This project models the parts of it that carry
state or encodings over a whole session, and proves what they keep. `dafny verify dfyconfig.toml`
checks everything.

| part | files |
|---|---|
| integers, strings, arrays, bit sets and positions on the wire, and their bytes | `Bytes`, `VarInts`, `Text`, `CodePoints`, `Codec`, `CodecIO`, `WireForm` |
| the data-driven packet codec: schema language, validator, interpreter, registry | `PacketSchema`, `SchemaRoundTrip`, `SchemaTheorems`, `PacketCodec`, `PacketRegistry`, `SchemaWire` |
| framing, compression, encryption, the read loop, and the whole link | `Frames`, `Transport`, `Link`, `LinkWire` |
| block breaking and placing, prediction and acknowledgement | `BlockInteraction`, `InteractionTicks`, `InteractionFrames`, `PredictionQueue`, `PredictionRuns`, `PredictionDoubt` |
| the input journal and the movement packets | `Movement`, `ControlRuns`, `MovementReplay`, `MovementRuns` |
| the coalescing render mailbox and its consumer | `RenderMailbox`, `RenderRuns` |
| signed chat: window, acknowledgements, indices, signing input | `SecureChat`, `ChatWire`, `ChatRuns` |
| the server hash | `ServerHash` |

Objects that the program updates in place are classes, and every method is tied to a function of the
old state; the theorems are about those functions and about runs of them. The main ones:

- *Prediction.* The queue of predictions keeps its order and bounds over every run. Client and server
  worlds agree at every moment of a run, position by position, if and only if no step is stale, and
  then become equal when the last number is acknowledged. Two kinds of step are stale. A break may end
  on a block whose state changed after the break began: the program captures that state at the start
  and compares only positions afterwards. And a chunk may be loaded over a prediction: the session
  puts it into the world without telling the tracker. A run for each leaves the client with a stale
  block. Elsewhere the worlds still agree, and the next word of the server on such a block, with
  nothing pending there, settles it. While the worlds agree, what an acknowledgement changes in sight
  is exactly what it rolls back.
- *Interaction.* Every frame and prediction of a tick is determined: which destroy actions, which
  hand, where the block was met, and the block across the face at which an item is placed.
- *Packet codec.* Printing and parsing undo each other for every schema the validator accepts, with
  an exact condition where `RemainingBytes` is not last (the validator allows that). Parsing
  normalises without any such condition. The validator rules out two run-time errors for all inputs.
  The bytes themselves are described apart from the functions that print and parse them: the encoder
  gives exactly the canonical form of its values, and the decoder accepts exactly their forms.
- *Transport.* The incremental decoder refines parsing of the concatenated bytes under every
  fragmentation, its buffer is bounded, and a whole link with compression and a stream cipher
  delivers what was sent. Frames, compressed payloads and the cipher stream have the documented bytes.
- *Movement.* A server that applies the delta-encoded packets holds what the client holds: after every
  tick the inputs, flight changes, sprint state, collision flags and rotation. For the place this is so if
  and only if nothing displaces the two: a rotation by the server makes the simulated place the
  baseline, although the server has not heard it, and a relative teleport starts from it. A player
  that creeps between rotations is never reported at all; the run is given. Inventory actions are lost
  exactly when a tick without a simulation finds them waiting.
- *Render mailbox.* The consumer can always reconstruct the authoritative maps, the last pose and the
  slots, metadata included.
- *Signed chat.* The window refines the history of received messages, and offsets are conserved
  exactly as long as no send fails after its update was generated. The session only warns about such
  a failure and goes on, so the condition is needed. What is signed has its fields at their offsets.
- *Server hash.* The hexadecimal text is that of the two's-complement value, for any length.

Foreign code enters as parameters: the compressor and the cipher are functions with the inverse laws
they need (a concrete cipher-feedback construction is shown to satisfy them), signing is a function
that may fail, ray casts, break speeds and placement tables are inputs, and times are numbers.

## Model

The main results come first; after them the results they rest on, and the methods tied to them.

| member | source | states |
|---|---|---|
| `SchemaTheorems.RoundTrip` | crates/cubic-protocol/src/packet_schema.rs:731-1072 | for every validated layout, values that print parse back to exactly themselves if and only if nothing is printed after a field that takes the remaining bytes |
| `SchemaTheorems.ParsingNormalises` | crates/cubic-protocol/src/packet_schema.rs:731-1072 | whatever a validated layout parses completely, it prints again, never longer than it was read, and parsing that gives the same values, wherever `RemainingBytes` stands |
| `SchemaTheorems.ValidatorSound` | crates/cubic-protocol/src/packet_schema.rs:621-713 | on a validated layout neither decoding of any bytes nor encoding of any values fails with the nesting limit or a missing preceding bool |
| `PacketRegistry.PacketRoundTrip` | crates/cubic-protocol/src/packet_schema.rs:365-425 | an encoded packet splits into its ID and a payload that decodes to the same definition and values if and only if the values are closed, which a tail layout guarantees |
| `SchemaWire.PacketPrinted` | crates/cubic-protocol/src/packet_schema.rs:397-425 | `b` is what encoding gives if and only if it is the ID as the shortest VarInt and then the fields, one after another: bools and flags 0 or 1, numbers in 1, 2, 4 or 8 big-endian bytes, lengths and counts before what they count, positions in their 26/26/12 bits, conditional fields where the first field of that name says so, all limits kept |
| `SchemaWire.PacketRead` | crates/cubic-protocol/src/packet_schema.rs:365-395 | a payload is decoded to these values if and only if it is, to the last byte, an accepted form of them: as printed, except that integers may be padded within their group limit, any non-zero byte is true, and zero words may end a bit set |
| `Frames.FragmentationIndependent` | crates/cubic-protocol/src/frame.rs:86-180 | for every schedule of pushes and takes, the frames given out are a prefix of the frames of the accepted bytes, all of them when a take finds none, and the error met is that of the accepted bytes |
| `Link.DeliveredAsSent` | crates/cubic-network/src/connection.rs:135-175 | over every run of sends, fragments, decryption, decoding, a switch of compression at any frame boundary and of encryption when nothing is under way, the delivered bodies are the sent bodies in order, and all of them once the link is quiet; the reader never fails |
| `LinkWire.WirePrinted` | crates/cubic-network/src/transforms.rs:76-130 | what a packet is put on the wire as: its length and itself, or with compression a frame of its length and the deflated body from the threshold on, else of a zero and the body |
| `Transport.ReadLoopNeverOverflows` | crates/cubic-network/src/connection.rs:135-175 | with room for the largest frame plus 8194 bytes and a largest frame of at least 2, the read loop never meets the buffer limit |
| `PredictionRuns.WorldsConverge` | crates/cubic-network/src/chat_session.rs:1112-1120 | from joining a world on, over every admissible run of ticks, server updates, acknowledgements of any numbers, chunk loads and unloads and resets: each loaded position without a prediction shows the server's latest state, and each with one shows the predicted state while exactly the server's latest is retained, at every moment if and only if no step is stale; and then, if only issued numbers were acknowledged, acknowledging the last of them leaves both worlds equal and nothing pending |
| `PredictionRuns.QueueRun` | crates/cubic-network/src/world_movement.rs:992-1105 | over every admissible run, whatever is acknowledged and whether or not the worlds agree, at most 32 predictions are pending, at pairwise distinct positions, numbered strictly upward below the next number; if only issued numbers are acknowledged they also lie above the latest of them, and acknowledging the last issued number leaves none |
| `PredictionRuns.QueueStep` | crates/cubic-network/src/world_movement.rs:992-1105 | an admissible step keeps the queue above the latest acknowledgement if and only if it does not acknowledge a number at or beyond the next one |
| `PredictionQueue.AcknowledgedExactly` | crates/cubic-network/src/world_movement.rs:992-1039 | a new acknowledgement removes exactly the predictions numbered at most it, restores what the server last said about each, and rolls back exactly those that were pending, are not any more and were predicted otherwise, once each and in queue order; any other acknowledgement does nothing |
| `PredictionRuns.RollbacksShow` | crates/cubic-network/src/world_movement.rs:992-1039 | while the worlds agree, an acknowledgement changes what is shown at a position if and only if it rolls back the prediction there |
| `PredictionRuns.LateAckDeafens` | crates/cubic-network/src/world_movement.rs:984-1003 | an acknowledgement still in flight when a reset starts the numbers again puts the tracker ahead of itself, and no later acknowledgement up to its number does anything |
| `PredictionDoubt.DoubtIsLocal` | crates/cubic-network/src/chat_session.rs:1112-1120 | over every admissible run the worlds agree on every position that no stale step has hit since an update with nothing pending there, a harmless load, an unload or a reset last settled it |
| `PredictionDoubt.SettledExceptDoubt` | crates/cubic-network/src/chat_session.rs:1222-1231 | from joining on, whenever nothing is pending the worlds are equal on every position not in doubt |
| `PredictionRuns.StretchBracketed` | crates/cubic-network/src/world_movement.rs:1155-1230 | over any stretch outside Creative mode and without a reset, from any state, the destroy actions lead from the break found to the break left: each start is closed by exactly one abort or stop at its position before the next start |
| `RenderRuns.ConsumerReconstructs` | crates/cubic-network/src/world_render.rs:53-250 | over every interleaving of changes, publications, resets and takes, also between two publications of one change and through overflow, the consumer's maps overlaid with what is pending equal the authoritative maps on every published key; drained with nothing unpublished, they are equal; and a clean mailbox means the consumer shows the last pose since the last reset, and the inventory, game mode, target, cracks and metadata last published, under the number of the last reset |
| `ChatRuns.SessionRefinesHistory` | crates/cubic-network/src/secure_chat.rs:156-279 | after every run the window is the last entries of the history without immediate repetitions, blank where undisplayed; transmitted, pending and lost offsets add up to that history; the pending offset is at most the threshold; both indices count without gaps |
| `ChatRuns.OffsetsConserved` | crates/cubic-network/src/secure_chat.rs:181-212 | transmitted and pending offsets add up to the number of signed messages if and only if no send with a pending offset got as far as an update and then had too long a message, no index left, or a certificate that did not sign |
| `ChatRuns.UpdateShowsWindow` | crates/cubic-network/src/secure_chat.rs:260-294 | every update sent has bit i set exactly when entry i of the window is displayed, bits 20 to 23 clear, the checksum of the displayed signatures, non-zero, and the unacknowledged offset; and the signature sent covers the displayed entries in order |
| `ChatWire.SigningInputForm` | crates/cubic-network/src/secure_chat.rs:307-337 | the signing input is exactly: chain version, sender, session, index, salt and whole seconds in 56 bytes, message length and message, list length and signatures, numbers in big-endian two's complement and the seconds rounded toward zero; it fails exactly beyond the 32-bit lengths |
| `SecureChat.SigningInputInjective` | crates/cubic-network/src/secure_chat.rs:307-337 | signing inputs are equal if and only if chain version, sender, session, index, salt, message and ordered last-seen list are, of any admissible length, and both times lie in the same whole second, counted toward zero |
| `MovementRuns.InputsReplay` | crates/cubic-network/src/world_movement.rs:353-367 | after every run, resets included, a tick that sends leaves the server holding the newest input, counted from the one held at the last reset; no two consecutive input packets are equal; and if nothing was coalesced the packets since the reset are exactly what is owed, less a first input that is the released one: the journal carried over the reset, or the held input where the first tick finds nothing else, and then the accepted changes |
| `MovementRuns.MovementReplays` | crates/cubic-network/src/world_movement.rs:1545-1636 | after every run, a tick that sends leaves a replaying server with the exact rotation, flags and sprint state; and, if the places were aligned, with a place that is the same or that the program's own distance computation finds within 4.0e-8 |
| `MovementRuns.FlightReplays` | crates/cubic-network/src/world_movement.rs:1524-1526 | after every run, a tick that sends tells the server exactly its flight changes in order; the server has heard all those since the last reset and holds the last |
| `MovementRuns.PlacesReplay` | crates/cubic-network/src/world_movement.rs:803-830 | the place from which the tracker measures is the one the server last heard, at every moment of a run, if and only if no turn found the simulation elsewhere and no teleport was relative in a component where the two differed |
| `MovementRuns.NextTickNear` | crates/cubic-network/src/world_movement.rs:1549-1556 | with exact arithmetic, whatever the next tick simulates ends near, if and only if the places are aligned or the reminder is about to send the position anyway |
| `MovementRuns.TurnsHideCreeping` | crates/cubic-network/src/world_movement.rs:803-830 | for every n a run of n small moves, each followed by a rotation, after which the server still holds the place of the start and has heard no position for n ticks; from two moves on it is beyond the epsilon |
| `MovementRuns.PositionsHeard` | crates/cubic-network/src/world_movement.rs:1549-1556 | unless a turn clears the reminder while the server waits, it has heard a position, or moved the player, fewer than 20 ticks ago |
| `ServerHash.SignedTwosComplementHex` | crates/cubic-network/src/online_crypto.rs:61-95 | for bytes of any length, the text is the signed hexadecimal text of their big-endian two's-complement value |
| `ServerHash.SignedHexReads` | crates/cubic-network/src/online_crypto.rs:61-95 | that text reads back as the value, has no leading zero digit, and starts with a minus sign exactly when the value is negative |
| `ServerHash.TwosComplementForm` | crates/cubic-network/src/online_crypto.rs:61-95 | that value is the one number in range whose big-endian two's-complement digits the bytes are |
| `PredictionRuns.AgreesExactly` | crates/cubic-network/src/world_movement.rs:992-1105 | from any state in agreement, not only from joining: the worlds agree after every prefix of an admissible run if and only if no step is stale |
| `PredictionRuns.StepKeeps` | crates/cubic-network/src/world_movement.rs:992-1105 | an admissible step keeps the two worlds in agreement if and only if it neither newly predicts a block whose shown state differs from the one captured when the break began, nor loads a chunk over a prediction with anything but what is both predicted and retained |
| `PredictionRuns.StaleBreakDiverges` | crates/cubic-network/src/world_movement.rs:1159-1220 | an admissible run of four events: a break starts, the server changes the block, the break ends, the server acknowledges; the client then shows the state from before the change |
| `PredictionRuns.StaleLoadDiverges` | crates/cubic-network/src/chat_session.rs:1064-1067 | an admissible run of four events: a break is predicted, the chunk is loaded with another block, the server acknowledges; the client then shows the state from before the load |
| `PredictionRuns.UndisturbedIsClean` | crates/cubic-network/src/world_movement.rs:1159-1220 | an admissible run that leaves the block under an active break as shown and loads no chunk over a prediction has no stale step |
| `PredictionRuns.RunNumbered` | crates/cubic-network/src/world_movement.rs:1321-1325 | from any state until the next reset, all destroy and use frames carry consecutive numbers in emission order |
| `PredictionRuns.RunPauses` | crates/cubic-network/src/world_movement.rs:1153-1158 | in no run, in any mode, is a break active while the pause after a break counts down |
| `PredictionQueue.ResolvedIsPrefix` | crates/cubic-network/src/world_movement.rs:992-1039 | popping from the front while the number is at most the acknowledged one removes exactly the predictions numbered at most that |
| `PredictionQueue.RegisterAgreement` | crates/cubic-network/src/world_movement.rs:1067-1105 | a registered and shown prediction keeps agreement if and only if the position was already pending or its noted server state is the one shown |
| `PredictionQueue.UpdatesKeepAgreement` | crates/cubic-network/src/world_movement.rs:1041-1065 | a batch of server updates, split between retained and immediate ones, keeps agreement with the server that has applied all of them |
| `PredictionQueue.LoadAgreement` | crates/cubic-network/src/chat_session.rs:1064-1067 | a chunk put into the world past the queue keeps agreement if and only if it overwrites no prediction |
| `InteractionTicks.SurvivalCadence` | crates/cubic-network/src/world_movement.rs:1152-1230 | a break held on, over any ticks and tools, sends no destroy action until the first tick whose summed progress reaches 1, then exactly one stop for the block it began on, and none in the next five ticks; sums are those of the program's own addition, whatever its rounding |
| `InteractionFrames.PressExactly` | crates/cubic-network/src/world_movement.rs:1232-1300 | a press fails exactly on a block outside the wire range; otherwise it adds one use frame with the next number, off-handed if and only if the offhand holds an item and the main hand nothing that can be placed, with the cursor and face in sight; and it predicts the item used, noting air, exactly if nothing was predicted yet, the block across the face is loaded air, and the queue accepts it |
| `InteractionFrames.AdjacentIsAcross` | crates/cubic-network/src/world_movement.rs:1372-1404 | the place of a placed block is the one other block whose closed cube holds every point of the face in sight |
| `InteractionFrames.SurvivalTick` | crates/cubic-network/src/world_movement.rs:1152-1230 | all destroy actions of a tick outside Creative mode, with what is left of break and pause: none in the pause; a stop when the summed progress of a break held on reaches 1; otherwise an abort of the break there was, then a start on a breakable block in sight |
| `InteractionFrames.CreativeTick` | crates/cubic-network/src/world_movement.rs:1139-1153 | the destroy actions of a tick in Creative mode and the delay left: one start, exactly on a block in sight under a fresh press or a held button without delay |
| `InteractionFrames.TickFrames` | crates/cubic-network/src/world_movement.rs:1107-1319 | a tick sends its destroy actions and then one use frame for each press |
| `InteractionFrames.CracksDrawn` | crates/cubic-world/src/render.rs:21-35 | with exact scaling the cracks are stage s exactly from s to s + 1 tenths of the progress, and drawn only between 0 and 1 |
| `PredictionQueue.RegisterExactly` | crates/cubic-network/src/world_movement.rs:1067-1105 | a known position goes to the back with the new number and state, keeping the server state and the player noted first; a new one is appended unless 32 are pending |
| `PredictionQueue.ReconcilesInOrder` | crates/cubic-network/src/world_movement.rs:1041-1065 | updates are taken in order, each retained at its position or else handed on last |
| `BlockInteraction.BlockInteractionTracker.RunTick` | crates/cubic-network/src/world_movement.rs:1107-1319 | frames, prediction, visible target, crack overlay and whole new state of a tick, in Creative and survival mode, and the error for an unencodable position; without a session only the break is forgotten |
| `BlockInteraction.BlockInteractionTracker.Use` | crates/cubic-network/src/world_movement.rs:1232-1300 | one press of the object: the frame and the placement as `PressExactly` has them, and its whole state afterwards |
| `PacketRegistry.ValidateArtifact` | crates/cubic-protocol/src/packet_schema.rs:552-619 | accepts exactly the artifacts of the current format whose supplementary texts and digest, packet order, identities, IDs, layouts and reasons for missing layouts are in order, and names an unsupported format first |
| `PacketRegistry.New` | crates/cubic-protocol/src/packet_schema.rs:318-334 | succeeds exactly on valid artifacts, and then each packet is found under its ID and under its identity, and nothing else is |
| `RenderMailbox.SharedMailbox.TakeUpdate` | crates/cubic-network/src/world_render.rs:53-99 | nothing unless dirty; otherwise everything pending is handed over once, a snapshot in preference to deltas, and what every update repeats stays |
| `MovementRuns.ClicksServiced` | crates/cubic-network/src/world_movement.rs:369-421 | over every run at most 64 accepted inventory actions wait, and those handed on followed by those waiting are exactly the accepted ones if and only if no tick without a simulation found any waiting |
| `MovementRuns.ClickDropped` | crates/cubic-network/src/world_movement.rs:373-421 | a click before the first teleport is accepted and dropped by the next tick |
| `Movement.WorldControls.Take` | crates/cubic-network/src/world_movement.rs:209-228 | held input and attack button stay; journal, count, presses and inventory actions are handed over once |
| `InteractionTicks.TickNumbered` | crates/cubic-network/src/world_movement.rs:1321-1325 | all sequenced frames of one tick, destroy and use alike, carry consecutive numbers in emission order, wrapping to 0 after the largest |
| `InteractionTicks.AfterCounts` | crates/cubic-network/src/world_movement.rs:1321-1325 | the numbers count up by one modulo 2^31 |
| `InteractionTicks.TickBracketed` | crates/cubic-network/src/world_movement.rs:1155-1230 | outside Creative mode a tick's destroy actions lead from the break it found to the break it leaves, never a start inside a break nor an end at another position |
| `InteractionTicks.TickPredictsOnce` | crates/cubic-network/src/world_movement.rs:1107-1319 | a tick registers at most one prediction, numbered within the tick, noting either the state the break began with or the block shown there; a finished break takes precedence over placing |
| `InteractionTicks.CreativeCadence` | crates/cubic-network/src/world_movement.rs:1327-1349 | a fresh press strikes at once whatever delay was left, and a button held on a block strikes again exactly every sixth tick |
| `BlockInteraction.BlockInteractionTracker.Acknowledge` | crates/cubic-network/src/world_movement.rs:992-1039 | the loop and its in-place queue: restored states, rollbacks and what is kept, as `AcknowledgedExactly` has them; a negative, old or repeated number changes nothing |
| `BlockInteraction.BlockInteractionTracker.ReconcileBlockUpdates` | crates/cubic-network/src/world_movement.rs:1041-1065 | updates of pending positions replace the retained state there, the others are returned in order, each judged against the queue as it stands |
| `BlockInteraction.BlockInteractionTracker.AddPrediction` | crates/cubic-network/src/world_movement.rs:1067-1105 | known position: server state kept, number and predicted state renewed, moved to the back; full queue: refused and unchanged |
| `BlockInteraction.BlockInteractionTracker.Mine` | crates/cubic-network/src/world_movement.rs:1180-1230 | starting, advancing and finishing a break, with the prediction and the pause |
| `SchemaTheorems.TailLayoutRoundTrip` | crates/cubic-protocol/src/packet_schema.rs:731-1072 | with `RemainingBytes` in final position only, everything that prints parses back to the same values, through all nested lists, optionals, structs and conditionals |
| `SchemaTheorems.RemainingBytesNotLast` | crates/cubic-protocol/src/packet_schema.rs:643-713 | the validator accepts a layout with a field after `RemainingBytes`, and some of its printed values do not parse back |
| `SchemaTheorems.LayoutValid` | crates/cubic-protocol/src/packet_schema.rs:621-641 | a layout is valid exactly if it is at most 32 deep, has at most 256 fields with well-formed, pairwise distinct names, and each codec is valid one level below, referring only to bools before it |
| `SchemaWire.Printed` | crates/cubic-protocol/src/packet_schema.rs:932-1072 | a value of any codec, valid or not, prints to `b` if and only if `b` is its canonical form |
| `SchemaWire.Read` | crates/cubic-protocol/src/packet_schema.rs:750-899 | a value of any codec is read with `t` left if and only if what comes before `t` is an accepted form of it |
| `SchemaRoundTrip.ValueRoundTrip` | crates/cubic-protocol/src/packet_schema.rs:750-1072 | a printed value followed by any suffix parses back to itself leaving the suffix, exactly when it is closed with respect to that suffix |
| `SchemaRoundTrip.SilentValue` | crates/cubic-protocol/src/packet_schema.rs:932-1072 | the values that print to no bytes at all, characterised by the schema and the value |
| `PacketCodec.ValidateFields` | crates/cubic-protocol/src/packet_schema.rs:621-641 | accepts a field list exactly when it is a valid layout: bounded, well named, no duplicate names, each codec valid at its depth |
| `PacketCodec.ValidateCodec` | crates/cubic-protocol/src/packet_schema.rs:643-713 | accepts a codec exactly when its bounds, nesting and conditions on preceding bools are in order |
| `PacketCodec.ReadFields` | crates/cubic-protocol/src/packet_schema.rs:731-748 | the reading loop yields exactly the values and the rest that the schema prescribes, or its error |
| `PacketCodec.ReadValue` | crates/cubic-protocol/src/packet_schema.rs:750-899 | every constructor reads exactly what the schema prescribes and advances the reader by it, or fails with its error |
| `PacketCodec.ReadScalar` | crates/cubic-protocol/src/packet_schema.rs:764-858 | numbers, strings, bytes, positions, bit sets and identifiers are read as prescribed |
| `PacketCodec.WriteFields` | crates/cubic-protocol/src/packet_schema.rs:901-930 | appends exactly the printed fields, or fails with the error of the first bad one |
| `PacketCodec.WriteValue` | crates/cubic-protocol/src/packet_schema.rs:932-1072 | appends exactly the printed value, or fails with its error |
| `PacketCodec.WriteScalar` | crates/cubic-protocol/src/packet_schema.rs:939-1008 | appends exactly the printed scalar, or refuses a value of another shape or beyond its bound |
| `PacketRegistry.Decode` | crates/cubic-protocol/src/packet_schema.rs:365-395 | unknown and unsupported packets, field errors and trailing bytes are reported; otherwise the definition and its values |
| `PacketRegistry.Encode` | crates/cubic-protocol/src/packet_schema.rs:397-425 | over a real writer, the bytes as `PacketPrinted` has them, or the error |
| `PacketRegistry.PacketNormalises` | crates/cubic-protocol/src/packet_schema.rs:365-425 | a decoded packet encodes again, no longer than its ID and payload, and decodes to the same packet |
| `PacketRegistry.PacketFaultFree` | crates/cubic-protocol/src/packet_schema.rs:318-425 | a registered packet never meets the nesting limit or a missing condition, decoding or encoding |
| `VarInts.WriteThenRead` | crates/cubic-protocol/src/varint.rs:12-58 | a value written in 7-bit groups and followed by anything reads back as itself in the same number of bytes |
| `VarInts.ReadThenWrite` | crates/cubic-protocol/src/varint.rs:12-58 | a value read, and every smaller one, is written in no more bytes than were read |
| `Codec.VarIntRoundTrip` | crates/cubic-protocol/src/varint.rs:12-46 | every 32-bit integer, negative ones included, printed and followed by anything reads back |
| `Codec.VarIntShortens` | crates/cubic-protocol/src/varint.rs:12-46 | a VarInt read from any form, padded ones included, is printed again no longer than it was |
| `Codec.StringRoundTrip` | crates/cubic-protocol/src/reader.rs:171-193 | a string that prints within its limits, followed by anything, reads back under the same limits |
| `Codec.StringShortens` | crates/cubic-protocol/src/reader.rs:171-193 | a string read prints again, never longer |
| `Codec.PackRoundTrip` | crates/cubic-protocol/src/position.rs:39-59 | packing a position in 26/26/12 bits and unpacking with sign extension gives it back |
| `Codec.PackOnto` | crates/cubic-protocol/src/position.rs:39-59 | every 64-bit word is the packing of the position it unpacks to |
| `Codec.BitSetRoundTrip` | crates/cubic-protocol/src/bitset.rs:68-104 | a bit set that prints, followed by anything, reads back |
| `Codec.BitSetShortens` | crates/cubic-protocol/src/bitset.rs:47-104 | a bit set read, trailing zero words dropped, prints again, never longer |
| `WireForm.VarIntForm` | crates/cubic-protocol/src/varint.rs:36-58 | byte i of a written integer is the i-th digit in base 128, plus 128 exactly when it is not the last, and there is no byte to spare |
| `WireForm.DigitQuotients` | crates/cubic-protocol/src/varint.rs:36-58 | the digits of the forms are those of the quotients by the powers of 128 and 256 |
| `WireForm.GroupsForm` | crates/cubic-protocol/src/varint.rs:12-34 | an integer is read from k bytes exactly if they are groups with the high bit on all but the last, and is their weighted sum |
| `WireForm.PositionPrinted` | crates/cubic-protocol/src/position.rs:39-59 | a position in range is printed as the eight bytes of the word with x in the upper 26 bits, z in the next 26 and y in the lower 12 |
| `WireForm.CountedPrinted` | crates/cubic-protocol/src/bitset.rs:93-104 | a bit set is printed as its count and eight bytes a word, and refused exactly when a bit at or beyond the limit is set or it has too many words |
| `CodePoints.Utf8IsEncoding` | crates/cubic-protocol/src/reader.rs:171-193 | bytes are taken as text exactly if they encode a sequence of Unicode scalar values, and their length in UTF-16 units is that of the sequence |
| `Text.IdentifierMeans` | crates/cubic-version/src/game_data.rs:639-667 | an identifier is a namespace and a path of at most 256 bytes together, of the allowed characters, no part of the path empty or one or two dots |
| `CodecIO.CodecReader.ReadGroups` | crates/cubic-protocol/src/varint.rs:12-34 | the accumulating loop of both integer readers: value, advance, end of input and the length error |
| `CodecIO.CodecReader.ReadString` | crates/cubic-protocol/src/reader.rs:171-193 | length bound, bytes, UTF-8 validity and unit bound, in that order |
| `CodecIO.CodecReader.ReadBitSet` | crates/cubic-protocol/src/bitset.rs:68-91 | word count bound, words, trailing zeros dropped, bit bound |
| `CodecIO.CodecWriter.WriteGroups` | crates/cubic-protocol/src/varint.rs:36-58 | appends exactly the 7-bit groups of the value |
| `CodecIO.CodecWriter.WriteString` | crates/cubic-protocol/src/writer.rs:98-117 | appends the prefixed string, or refuses it unchanged when a limit is exceeded |
| `CodecIO.CodecWriter.WriteBitSet` | crates/cubic-protocol/src/bitset.rs:93-104 | appends count and words, or refuses the set when it exceeds the limits |
| `Frames.DrainAppend` | crates/cubic-protocol/src/frame.rs:112-180 | draining early and again later is draining the concatenation once |
| `Frames.NextFrameExtends` | crates/cubic-protocol/src/frame.rs:112-180 | a frame or an error, once decided, is not changed by later bytes |
| `Frames.FrameRoundTrip` | crates/cubic-protocol/src/frame.rs:112-227 | an encoded frame followed by anything is the next frame, and its length is consumed |
| `Frames.EncodedFramesDrain` | crates/cubic-protocol/src/frame.rs:112-227 | concatenated encoded frames drain to exactly their bodies in order, followed by whatever the rest holds |
| `Frames.WaitingIsBounded` | crates/cubic-protocol/src/frame.rs:156-178 | that fewer than the largest frame plus three bytes wait whenever no frame is found holds if and only if the largest frame is at least 2 |
| `LinkWire.FrameFound` | crates/cubic-protocol/src/frame.rs:112-180 | a frame is found exactly where a length of at most three groups, not beyond the largest frame, stands before so many bytes |
| `LinkWire.FrameRefused` | crates/cubic-protocol/src/frame.rs:112-180 | a stream is refused exactly for five continued bytes, a negative length, a length of more than three bytes or one too large, with the error of the first of these |
| `Frames.FrameDecoder.Push` | crates/cubic-protocol/src/frame.rs:86-109 | appends to the pending bytes or refuses and leaves them; the buffer never exceeds its bound by more than 4095 bytes |
| `Frames.FrameDecoder.Next` | crates/cubic-protocol/src/frame.rs:112-180 | gives out exactly the next frame and consumes it, or nothing, or the error; pending bytes otherwise stay |
| `Frames.FrameDecoder.CompactIfUseful` | crates/cubic-protocol/src/frame.rs:195-205 | moves the pending bytes to the front in place without changing them, and leaves an offset below 4096 and below the pending length |
| `Frames.EncodeFrame` | crates/cubic-protocol/src/frame.rs:215-227 | the length prefix and the body, or the length error |
| `Frames.DecodePartialVarInt` | crates/cubic-protocol/src/varint.rs:60-76 | complete value with its length, more needed, or malformed after five continued bytes |
| `Link.WireRoundTrip` | crates/cubic-network/src/transforms.rs:76-178 | one packet, compressed or not, followed by anything, is taken from the stream as exactly its body |
| `Transport.CompressionRoundTrip` | crates/cubic-network/src/transforms.rs:110-178 | a compressed body decodes to itself if and only if it is not the empty body under threshold 0 |
| `LinkWire.PayloadAccepted` | crates/cubic-network/src/transforms.rs:132-178 | a payload is accepted as a body exactly if it says 0 and holds the body, below the threshold, or gives the body's length, from the threshold to the largest frame, and inflates completely to it |
| `Transport.OpenSealed` | crates/cubic-network/src/transforms.rs:70-95 | opening a sealed stream from the same register gives the stream and the same end register |
| `Transport.OpenAppend` | crates/cubic-network/src/transforms.rs:70-74 | opening fragment by fragment is opening the concatenation |
| `Transport.Cfb8Invertible` | crates/cubic-network/src/transforms.rs:51-75 | cipher feedback with 8-bit segments over any block function is an invertible byte-wise stream |
| `LinkWire.SealedBits` | crates/cubic-network/src/transforms.rs:51-87 | bit by bit, a sealed byte is the plain one flipped where the block function of the last register's worth of secret and sealed bytes has a bit |
| `LinkWire.OpenedBits` | crates/cubic-network/src/transforms.rs:51-74 | an opened byte stands in the same relation to the received ones, whoever sealed them |
| `Transport.WireTransforms.DecryptInPlace` | crates/cubic-network/src/transforms.rs:70-74 | the array is overwritten with the opened bytes and the register advances; without a key nothing changes |
| `Transport.WireTransforms.EncodeOutbound` | crates/cubic-network/src/transforms.rs:76-87 | frame re-encoded with compression when on, sealed when a key is set, register advanced; errors leave the register |
| `Transport.ExtractSingleFrame` | crates/cubic-network/src/transforms.rs:97-108 | exactly one complete frame and nothing else is accepted |
| `Transport.CompressFrame` | crates/cubic-network/src/transforms.rs:110-130 | declared size and deflated bytes at or above the threshold, size 0 and plain bytes below |
| `Transport.DecompressBody` | crates/cubic-network/src/transforms.rs:132-178 | each of the error cases of declared size, threshold, limit and actual size, else the inflated body |
| `Transport.MinecraftConnection.ReadNextFrame` | crates/cubic-network/src/connection.rs:135-175 | drain first, otherwise decrypt and buffer the next read; result and all state afterwards, end of stream included |
| `RenderRuns.ApplyShowsViews` | crates/cubic-render/src/world.rs:734-854 | taking and applying the pending update shows exactly the overlay |
| `RenderRuns.DrainedAfterTake` | crates/cubic-network/src/world_render.rs:53-99 | one take after the last publication makes the consumer's maps equal to the authoritative ones |
| `RenderRuns.PutEntityView` | crates/cubic-network/src/world_render.rs:112-154 | a published delta shows the authoritative state of its entity, and any other entity either stays as shown or turns authoritative |
| `RenderRuns.PosesCoalesce` | crates/cubic-network/src/world_render.rs:288-308 | however many poses are coalesced, the one taken is the last, is a discontinuity if any was, and is dated by the last jump among them, else by the last pose |
| `RenderMailbox.SharedMailbox.PublishEntity` | crates/cubic-network/src/world_render.rs:112-154 | latest delta per entity; a full table turns into a snapshot of the authoritative store; a pending snapshot is edited |
| `ChatRuns.FailedSigningLosesOffset` | crates/cubic-network/src/chat_session.rs:985-992 | a concrete run: one message received, one send whose signing fails and only warns; the acknowledgement is gone |
| `ChatRuns.OffsetNeverOverflows` | crates/cubic-network/src/secure_chat.rs:156-254 | in every reachable session exactly the next index below the limit is accepted, so the offset overflow is unreachable |
| `SecureChat.AcknowledgedBytesMatch` | crates/cubic-network/src/secure_chat.rs:260-279 | the bytes or-ed together have exactly the bits of the displayed entries |
| `SecureChat.WindowSlides` | crates/cubic-network/src/secure_chat.rs:242-254 | one more message shifts the view of the last entries by one |
| `SecureChat.WindowShows` | crates/cubic-network/src/secure_chat.rs:242-254 | entry i of the window is the signature of the message as far from the newest, if that was displayed, else blank |
| `SecureChat.DisplayedInOrder` | crates/cubic-network/src/secure_chat.rs:260-279 | the acknowledged signatures are those of the displayed entries, one each, in their order |
| `SecureChat.ChecksumIsLowByte` | crates/cubic-network/src/secure_chat.rs:281-294 | the checksum is the low byte, 1 in place of 0, of 31^n plus the sum of the n array hashes weighted with powers of 31 |
| `SecureChat.ArrayHashIsPolynomial` | crates/cubic-network/src/secure_chat.rs:281-294 | an array hash is, modulo 2^32, the same polynomial of its bytes with their signs |
| `ChatRuns.AcknowledgesAlone` | crates/cubic-network/src/secure_chat.rs:173-179 | after every run, a received message is followed by an acknowledgement of its own exactly if more signed messages than the threshold are unacknowledged, and that covers them all |
| `SecureChat.AcknowledgementChecksum` | crates/cubic-network/src/secure_chat.rs:281-294 | the low byte of the wrapping list hash of wrapping array hashes of signed bytes, 1 in place of 0 |
| `SecureChat.BuildSigningInput` | crates/cubic-network/src/secure_chat.rs:307-337 | the accumulating loop gives the bytes as `SigningInputForm` has them, or the range error |
| `SecureChat.LastSeenTracker.Add` | crates/cubic-network/src/secure_chat.rs:242-254 | an immediate repetition changes nothing; otherwise the window slides and the offset grows, the overflow leaving the window moved |
| `SecureChat.LastSeenTracker.GenerateUpdate` | crates/cubic-network/src/secure_chat.rs:260-279 | bits, signatures and checksum of the window, the offset taken and cleared; another window size is refused unchanged |
| `SecureChat.SecureChatSession.AcceptIncoming` | crates/cubic-network/src/secure_chat.rs:156-171 | a wrong index or the index limit is refused unchanged; otherwise the index advances and a signed message enters the window |
| `SecureChat.SecureChatSession.PrepareOutgoing` | crates/cubic-network/src/secure_chat.rs:181-212 | expired, window, range, signing and index failures in that order, each with the state it leaves; on success one more index |
| `ServerHash.AddOneInPlace` | crates/cubic-network/src/online_crypto.rs:66-76 | the carry loop adds one to the number in the array, and only an array of 255s carries out of the top, leaving zeros |
| `ServerHash.HexText` | crates/cubic-network/src/online_crypto.rs:79-95 | digit by digit the bytes give the shortest text of their number |
| `MovementReplay.TickReplays` | crates/cubic-network/src/world_movement.rs:1501-1636 | after a tick the server has the exact input, flight state, sprint state, flags and rotation, has heard the flight changes in order, and its pose and the tracker's are renewed alike: both take the place, or neither |
| `MovementReplay.TickTells` | crates/cubic-network/src/world_movement.rs:1501-1636 | a tick's packets come in order and tell nothing needless: inputs, flight changes, a sprint command exactly on a change, and a movement packet with the place exactly when it is beyond the epsilon or the twentieth tick has come, the rotation exactly when it changed, the flags alone when only they did |
| `MovementReplay.FirstTickReplays` | crates/cubic-network/src/world_movement.rs:1501-1556 | without a baseline a tick announces inputs, flight and sprint and no movement, and its pose becomes the baseline |
| `ControlRuns.JournalHoldsNews` | crates/cubic-network/src/world_movement.rs:253-281 | from one sample to the next the journal holds the last 64 of the snapshots that were news, in order, and counts the others |
| `ControlRuns.ButtonsSampled` | crates/cubic-network/src/world_movement.rs:178-228 | a sample holds the use presses since the last release or sample, at most 8, the attack button as left, and whether it changed |
| `Movement.WorldControls.RecordInputTransition` | crates/cubic-network/src/world_movement.rs:253-281 | a stale number changes nothing, an equal input only the number, and a full journal loses its oldest entry and counts it |
| `Movement.MovementPacketTracker.FramesWithFlight` | crates/cubic-network/src/world_movement.rs:1501-1636 | the loops of the object: packets and whole new state of a tick, as `TickTells`, `TickReplays` and `FirstTickReplays` have them |

## Left out

- NBT values and text components: three codecs of the schema language are missing, with their own format, its limits and its budgets.
- PacketCodec.ReadValue: no NBT, as said above.
- PacketCodec.WriteValue: no NBT, as said above.
- PacketCodec.ValidateCodec: no NBT, as said above.
- Error texts and field labels: only the kind of an error is kept.
- The JSON form of the schema artifact, and its game version and report digest, which are checked before it is built.
- Packet list order by identity: a difference of identities only matters at equal IDs, which are refused anyway.
- The cross check of packet identities against another list, and the generation of schemas from reports.
- Bit operations: or-ing disjoint bits is addition and shifts are powers; wrap-around and truncation are written out where they occur.
- Allocation failures and capacity hints.
- Floating point: values are the numbers they stand for. The sum of break progress, the crack stage, the cursor and the squared distance go through functions that may round in any way; NaN and infinities are missing.
- Compression and ciphers: only the inverse laws; AES, zlib and key handling are not part of this model.
- Link.DeliveredAsSent: one direction of one connection, encryption switched only when nothing is under way, and the empty body under threshold 0 never sent, because the program's decoder rejects its own encoding of it.
- Sockets, timeouts and write failures.
- PredictionRuns.WorldsConverge: numbers do not wrap, and a ray reports a loaded block as it is shown.
- BlockInteraction.BlockInteractionTracker.RunTick: after an unencodable position only the error is stated, because the session ends there.
- The limit on block updates in one event.
- Choosing the rolled-back prediction that moves the player out of a restored block; the list it is chosen from is modelled, and so is the effect of the move on what is sent.
- Movement simulation: the state after physics is an input of each tick; the flight toggle's result is an input too.
- Movement.WorldControls.Take: look deltas, intended look and jump times are missing from the sample.
- The diagnostic fields of the packet tracker.
- MovementRuns.PlacesReplay: the server holds a rotation in the form the client gives it, within a full turn; without a simulation a relative rotation starts from the one the server holds.
- MovementRuns.InputsReplay: a reset is one on both sides, after which the server takes every input as released.
- The waker of the render mailbox.
- Entities and chunks are opaque values; the smoothing and meshing of the consumer are not part of this model.
- ChatRuns.SessionRefinesHistory: one session between two resets, with a window of at least one entry and a threshold below the integer limit, as every profile has them.
- Certificates, hashing and signature verification; the signing function may be any function.
- The unauthenticated chat modes, the UI event queue, and outgoing text validation.
- Authentication, asset loading, the window, and command-line code.
