# A verified model of the end-to-end encrypted chat

The program is a chat for two users over an untrusted relay. Each user has a
password-protected Ed25519 identity; two messages establish a Kyber/HKDF session key; every
line is sealed with AES-256-GCM inside two nested Protocol Buffers messages; a relay fans
frames out to the other WebSockets of a room. This project models the code that decides what
happens, down to its bytes, branches and steps, and proves it correct. The libraries
underneath (OpenSSL, liboqs, Protocol Buffers, Boost, iostreams) appear only through the laws
stated for them.

How the modules are layered:

- `ByteStrings`, `Text`: octets, result types, network byte order, and searching strings.
- `Wire`, `Messages`, `WireFormat`: the Protocol Buffers wire format (the sections "Base 128 Varints" and
  "Length-Delimited Records" of its encoding specification) and the three schemas; the last
  says the octets over again, independently of the functions that write and read them.
- `Crypto`: the primitives as a record of functions together with the laws assumed of them
  (`Lawful`), and on top of it the AES-GCM helper, the session object and the KEM wrapper.
- `Handshakes`, `IdentityStore`, `Engine`: what is signed, sent and accepted, the profile
  file, and the connection engine as a class proved against functions of its inputs.
- `Agreement`, `Secrecy`: any number of engines over a network that may deliver any frame at
  all. Signatures, encapsulations and sealed boxes are ideal tables in the state; the signed
  strings are real bytes. One identity may act in both roles. `Secrecy` closes all frames sent
  under the rules of the primitives.
- `Relay`, `RelayInvariants`: the room table, and all session threads as a machine whose steps
  are the three critical sections, the reads and the single writes.
- `EnginePrograms`, `EndToEnd`, `Loopback`: two engines on top of that relay, and two engines
  on two blocking in-memory channels. Both are proved for any program that obeys the handshake
  and message laws, and the engine is proved to obey them.
- `TcpFraming`, `Query`, `RoomUrl`, `Pins`: the remaining codecs and parsers, and the pin file.

In every machine a run is a list of actions and an action that is not enabled changes
nothing, so a lemma about all lists is a lemma about all reachable states and interleavings.
Methods that work in place in the source (engine, session, KEM handle, streams, channels, room
table, decoders, URL editing, pin file) are classes and loops here, each proved equal to a
function about which the properties are then proved.

What the proofs found in the code:

- Loading a profile into an engine that already holds an identity, with a wrong password or a
  file damaged behind the public key, replaces the public key and keeps the private one.
  `is_loaded()` stays true, and the halves no longer belong together: shown for every other
  identity's profile, whole or cut anywhere behind its public key
  (`IdentityStore.FailedLoadMixesKeys`). A failed load keeps a genuine identity genuine exactly
  when the file fails before the public key or has nothing but this key there
  (`IdentityStore.FailedLoadGenuine`).
- Creating a profile checks the stream before it is flushed, so it can report success and leave
  a cut file, which then never loads (`IdentityStore.CreatedLoads`).
- A TCP frame of 2^32 bytes or more comes back as a different one (`TcpFraming.UnframedFramed`).
- A frame of 2^31 bytes or more is refused as malformed, but from 2^32 on its size wraps and its
  first bytes alone are parsed (`WireFormat.HugeFrameParsed`).
- An id that is not UTF-8 is serialized but the frame is refused by the receiver
  (`Engine.OpenedSealed`; `Engine.BadIdRefused` shows it for one octet).
- The length checks in `kem_kyber.cpp` are what makes the signed server string unambiguous:
  without them two different pairs have one signature (`Handshakes.LengthCheckNeeded`).
- Room names with `&`, `+` or an escape reach the relay as other names, and names with white
  space or control characters reach none, since no request line can carry them. For all names,
  `RoomUrl.RoomsShared` says exactly when two clients meet: so "a+b" and "a%20b" are one room,
  while "a b" is in none (`RoomUrl.DifferentNamesMeet`), and plain names that a target can
  carry meet exactly when equal (`RoomUrl.PlainRoomsShared`).
- A pin appended to a file that does not end in white space, or that has an odd number of
  words, cannot be read back (`Pins.PinReadBack`).
- The comments in `handshake.proto` (line 16) describe the server signature as covering the
  context, the ciphertext and the client's KEM key; that is what the code signs, and it leaves
  out the peer's identity, so agreement is on KEM key, ciphertext and session key. A foreign
  key that signs an engine's KEM key becomes the server's peer while the client agrees with that
  server (`Agreement.IdentityNotAgreed`); the server names the right client exactly when it
  names any engine at all (`Agreement.PartnerNamesClient`).
- A host that is not in the room table when the relay fans out the guest's hello never gets it
  (`EndToEnd.LateHostMissesHello`).

## Model

| member | source | states |
|---|---|---|
| `EndToEnd.ConversationSafe` | relay_cli.cpp:86-150 | in every interleaving of relay threads, handshakes and both chat directions, with any activity in other rooms: neither handshake returns false, a chatting side has the shared key and the other's identity, no frame is dropped, and what is shown is a prefix of the peer's non-empty lines in order |
| `EndToEnd.ConversationCompletes` | relay_cli.cpp:86-150 | once both are connected, every step of the two lowers a natural number that no other room can change, some such step is enabled until all is done, and then each side has shown exactly the other's non-empty lines |
| `EndToEnd.ConversationTerminates` | relay_cli.cpp:86-150 | for whole runs: once both are connected, whatever happens next holds at most as many steps of the two as the measure says, and from wherever it has got to the conversation can still be finished |
| `EndToEnd.LateHostMissesHello` | relay_server.cpp:56-70 | the assumption about the host is needed: if it is not in the table at the first snapshot of the guest's thread, no hello ever gets to it |
| `EndToEnd.EngineSetupValid` | relay_cli.cpp:142-150 | the connection engine with ids "cli" and "peer" satisfies the laws the two results rest on, for all identities, draws and rooms, and lines of up to 2^30 bytes |
| `EndToEnd.InvReached` | relay_server.cpp:34-92 | the joint invariant of relay and clients holds in every reachable state |
| `EndToEnd.Delivered` | relay_server.cpp:49-79 | the k-th frame a side can receive is the k-th frame the other side sent |
| `EndToEnd.NonEmptyInPlace` | relay_cli.cpp:144 | of a list of lines exactly the non-empty ones count, in place |
| `EndToEnd.Progress` | relay_cli.cpp:86-150 | no deadlock: until all is done a step of the two clients or of their relay threads is enabled |
| `EndToEnd.OursDecreases` | relay_cli.cpp:128-150 | each such step lowers the measure |
| `EndToEnd.TheirsNeutral` | relay_server.cpp:34-92 | a step of any other session leaves the measure as it is |
| `EnginePrograms.EngineProgramLawful` | connection_engine.cpp:147-278 | two engines with genuine identities meet the handshake and message laws: hello, response and both conclusions fit together, and messages up to the line limit open to themselves |
| `Agreement.ClientAgreement` | connection_engine.cpp:161-205 | over a network that drops, repeats, reorders and injects frames: a client run that returns true with an engine's key as peer has exactly one partner run, of that engine in the server role, on exactly its KEM key and ciphertext, with the same session key, and is that partner's only client |
| `Agreement.PartnerNamesClient` | connection_engine.cpp:239-272 | agreement on the client's identity, exactly: the partner run of a client run has that client's engine as peer if and only if it has any engine as peer |
| `Agreement.IdentityNotAgreed` | connection_engine.cpp:161 | for every two engines and every foreign key that can sign, a run in which the client agrees with the server's run while the server holds the foreign key for its peer |
| `Agreement.ServerOrigin` | connection_engine.cpp:235-270 | a completed server run with an engine's key as peer was begun by exactly one client run of that engine, which generated that KEM key |
| `Agreement.HelloIsNoResponse` | connection_engine.cpp:196-200 | a hello under an engine's key, reflected or fanned out to any client in any reachable state, is refused by signature verification |
| `Agreement.AcceptedWasSealed` | connection_engine.cpp:118-145 | a plaintext accepted by a run with an engine as peer was sealed by a completed run of the same session |
| `Agreement.SealedIsAccepted` | connection_engine.cpp:81-140 | what a run seals enters the table with its nonce, box and plaintext, and the frame that the engine makes of it is accepted as that plaintext by every completed run of the session |
| `Agreement.DecryptAccepts` | connection_engine.cpp:135-140 | a completed run accepts every frame with the nonce and the box of a sealed message of its session |
| `Agreement.MessagesReached` | connection_engine.cpp:72-145 | sealed and accepted messages are accounted for in every reachable state |
| `Agreement.FailureIsFinal` | connection_engine.cpp:209-212 | a run that has not completed can fail at any time, and a failed run never completes |
| `Agreement.InvReached` | connection_engine.cpp:147-278 | every signature in the table belongs to a run that made it, KEM keys and ciphertexts are not reused, and every run's fields fit its phase |
| `Agreement.StartIsEngine` | connection_engine.cpp:156-178 | starting a client run is the engine's hello: it is serialized, carries the run's KEM key, the identity key and a signature, and what was signed enters the table |
| `Agreement.ClientStepIsEngine` | connection_engine.cpp:186-208 | the machine's client step completes exactly when the engine does on that frame, with the engine's key and peer |
| `Agreement.ServerStepIsEngine` | connection_engine.cpp:229-270 | the machine's run fails, signing nothing, when the engine refuses the hello; otherwise it holds the engine's key and peer, the response carries its ciphertext, and exactly the string signed in it enters the table |
| `Secrecy.SessionKeySecret` | connection_engine.cpp:156-205 | the session key and shared secret of a completed run with an engine as peer are not derivable from the closure of all frames sent, however long the derivation, and whichever identity keys are lost afterwards, all of them included; nor is any signing key that is kept |
| `Secrecy.LinesSecret` | connection_engine.cpp:81-111 | no line sealed by a run with an engine as peer is derivable by the relay or anyone on the network, also with every identity key lost afterwards |
| `Secrecy.KeysExposedExactly` | connection_engine.cpp:156-205 | in every reachable state a session key can be derived exactly when not both of its ends are engines', whichever identity keys are kept |
| `Secrecy.LinesExposedExactly` | connection_engine.cpp:81-111 | and a line exactly when its session key can |
| `Secrecy.SignaturesNotForged` | connection_engine.cpp:161-162 | a signature under a kept key can be derived only if a run of that key's engine has made it: what the ideal signature table takes for granted |
| `Secrecy.SignaturesExactly` | connection_engine.cpp:250-251 | a signature can be derived exactly when its key is lost or a run has made it |
| `Secrecy.DerivedHarmless` | connection_engine.cpp:147-278 | whatever is derivable gives away no protected secret (the invariant of the closure) |
| `Handshakes.Concat` | connection_engine.cpp:21-30 | the buffer built in place is the prefix followed by both parts |
| `Handshakes.SignedStringsUnambiguous` | connection_engine.cpp:161 | no string is signed in both roles, a client string determines the KEM key, and with KEM keys of one length two server strings agree exactly when ciphertext and KEM key do |
| `Handshakes.LengthCheckNeeded` | kem_kyber.cpp:38-39 | without the length check one server string has two readings |
| `Handshakes.LabelOctets` | connection_engine.cpp:161 | the two labels, octet by octet |
| `Engine.HonestHandshake` | connection_engine.cpp:147-278 | two engines that exchange their frames unchanged both succeed with one 32-byte key, each with the other's identity key as peer |
| `Engine.HonestCalls` | connection_engine.cpp:147-278 | two calls of genuine engines whose frames reach each other unchanged both return true, with one 32-byte key, and each reports the other's identity key as its peer |
| `Engine.SuccessNeedsAll` | connection_engine.cpp:147-278 | a call returns true only if the identity is loaded, every library call has worked, its own frame has been sent and the other's received |
| `Engine.OpenedSealed` | connection_engine.cpp:81-145 | parse-and-decrypt of encrypt-and-serialize gives back the plaintext exactly when both ids are UTF-8, and refuses the frame otherwise |
| `Engine.SealedCarries` | connection_engine.cpp:86-102 | what a frame carries in the clear: recipient, version, no sender key and the sending time outside; sender, nonce, sealing time and the box inside |
| `Engine.BadIdRefused` | connection_engine.cpp:87-135 | a sender id of the one octet 255: every message is sealed, and refused as malformed under the same key |
| `Engine.SmallMessagesSealed` | connection_engine.cpp:81-111 | with a 32-byte key and a 12-byte nonce every message below 2^31 - 1000 bytes, ids included, is serialized |
| `Engine.MessagesUseLastHandshake` | connection_engine.cpp:77-84 | over every history of calls a message is encrypted or decrypted only if the most recent handshake call returned true, and under the 32-byte key that call derived |
| `Engine.ReadyAfterLastHandshake` | connection_engine.cpp:56-70 | the session is ready exactly when the most recent handshake call returned true |
| `Engine.KeyOfLastSuccess` | session.h:11-12 | the stored key is that of the most recent successful handshake, through any number of later failures |
| `Engine.ReadyNeedsHandshake` | connection_engine.cpp:56-70 | a ready engine has a most recent handshake call |
| `Engine.DerivedKeySize` | connection_engine.cpp:204 | every derived key has 32 bytes |
| `Engine.ConnectionEngine.constructor` | connection_engine.cpp:33 | a new engine has no identity, no key and is not ready |
| `Engine.ConnectionEngine.LoadOrCreateIdentity` | connection_engine.cpp:35-54 | returns true exactly when the file loads, or when a profile is drawn and written with the stream good; what the engine's identity is after success and after each failure, what the path holds after creating, the created flag and the fingerprint; session state stays |
| `Engine.ConnectionEngine.SendHello` | connection_engine.cpp:156-178 | the part up to the hello: the key pair of the draw and the hello of the specification, or nothing sent |
| `Engine.ConnectionEngine.FinishClient` | connection_engine.cpp:180-204 | the part from the response on: succeeds exactly when reading, the checks, decapsulation and derivation do, with that key and peer |
| `Engine.ConnectionEngine.AnswerHello` | connection_engine.cpp:224-267 | the server part up to the response: sent exactly when the specification sends one, with its bytes and session |
| `Engine.ConnectionEngine.RunClientHandshake` | connection_engine.cpp:147-213 | true exactly when the run completes; the frame sent, the new key and readiness, the peer fingerprint, and the old key kept on failure |
| `Engine.ConnectionEngine.RunServerHandshake` | connection_engine.cpp:215-278 | the same for the server role |
| `Engine.ConnectionEngine.EncryptAndSerializeMessage` | connection_engine.cpp:72-116 | succeeds exactly when ready, with a nonce, working cipher calls and a frame that serializes, and then produces that frame under the current key, changing nothing |
| `Engine.ConnectionEngine.ParseAndDecryptMessage` | connection_engine.cpp:118-145 | refuses unless ready and otherwise opens the frame under the current key, or fails with the cipher calls, changing nothing |
| `Crypto.OpenSeal` | crypto.h:85-104 | the ciphertext followed by the tag splits and opens to the plaintext for every key, nonce and plaintext of legal size |
| `Crypto.SealLayout` | crypto.h:85-90 | the ciphertext comes first and the 16 octets of the tag last |
| `Crypto.FailedCipher` | crypto.h:38-148 | a box is sealed or opened only if the cipher calls work, and a failed one hides the verdict on the tag |
| `Crypto.LawsHoldTogether` | crypto.h:38-148 | the laws assumed of the primitives are consistent: a witness satisfies all of them |
| `Crypto.AesGcm.Encrypt` | crypto.h:38-91 | ciphertext with the tag appended, the nonce size error, or the error of a failed cipher call |
| `Crypto.AesGcm.Decrypt` | crypto.h:93-148 | splits off the last 16 bytes and opens, with the errors of the nonce size, a short input, a failed cipher call and a bad tag |
| `Crypto.Session.SetKey` | session.h:11 | the stored key is replaced |
| `Crypto.Session.Encrypt` | session.h:15-20 | seals under the stored key, refuses without one |
| `Crypto.Session.Decrypt` | session.h:22-27 | opens under the stored key, refuses without one |
| `Crypto.KyberKem.Init` | kem_kyber.cpp:15-19 | the handle is set, or the error is raised when the library gives none |
| `Crypto.KyberKem.Keypair` | kem_kyber.cpp:26-32 | key pair of the draw, or an error without a handle |
| `Crypto.KyberKem.Encapsulate` | kem_kyber.cpp:34-43 | succeeds only for a peer key of exactly the public-key length |
| `Crypto.KyberKem.Decapsulate` | kem_kyber.cpp:45-53 | succeeds only for a ciphertext and a secret key of exactly their lengths |
| `Messages.HandshakeRoundTrip` | handshake.proto:4-17 | both handshake messages, one wire shape, parse to what was serialized |
| `Messages.ChatRoundTrip` | messages.proto:6-18 | a chat message parses to itself exactly when its sender id is UTF-8, for every 64-bit timestamp |
| `Messages.EnvelopeRoundTrip` | envelope.proto:3-9 | the same for the envelope and its recipient name |
| `Messages.HandshakeSerializes` | connection_engine.cpp:170-174 | a handshake message of ordinary size is serialized |
| `Messages.ChatSerializes` | connection_engine.cpp:92-96 | a chat message of ordinary size is serialized, with a bound on the result |
| `Messages.EnvelopeSerializes` | connection_engine.cpp:104-108 | the same for the envelope |
| `Wire.VarintRoundTrip` | envelope.proto:4 | a varint is read back with the rest of the input untouched exactly when it fits the reader's limit |
| `Wire.ParsePrint` | envelope.proto:3-9 | for every schema and every field values, printing and parsing gives them back exactly when the text is UTF-8, and is refused otherwise |
| `Wire.DefaultsElided` | envelope.proto:3-9 | a field takes no octets exactly when it holds its default |
| `Wire.DefaultsPrintNothing` | envelope.proto:3-9 | a message, or what is left of it, prints nothing exactly when every field holds its default |
| `WireFormat.VarintValue` | envelope.proto:4 | seven bits an octet, the least significant first, the top bit on all octets but the last, and no octet too many |
| `WireFormat.Utf8IsEncodedText` | messages.proto:8 | the check of text fields accepts exactly the encodings of sequences of Unicode scalar values |
| `WireFormat.HandshakeOctets` | handshake.proto:4-17 | every handshake message: each field's key, length and contents, in order, nothing for a default |
| `WireFormat.ChatOctets` | messages.proto:6-18 | the same for every chat message |
| `WireFormat.EnvelopeOctets` | envelope.proto:3-9 | the same for every envelope |
| `WireFormat.SmallEnvelope` | envelope.proto:3-9 | an envelope with version 1 and a one-octet name alone is [8, 1, 18, 1, name] |
| `WireFormat.NegativeTimeOctets` | envelope.proto:8 | the time -1 takes nine octets 255 and a 1 |
| `WireFormat.ForeignFieldSkipped` | connection_engine.cpp:126 | a record of an unknown field or of the wrong wire type changes nothing and is stepped over |
| `WireFormat.NumberZeroRefused` | connection_engine.cpp:126 | field number 0 makes a message malformed |
| `WireFormat.NumberTruncated` | handshake.proto:6 | a 32-bit field keeps the low 32 bits of the number it is sent |
| `WireFormat.LastRecordWins` | connection_engine.cpp:126 | a later record of a field replaces an earlier one |
| `WireFormat.HugeFieldRefused` | connection_engine.cpp:93-96 | no message with a field of 2^31 octets or more is serialized |
| `WireFormat.HugeFrameParsed` | connection_engine.cpp:126 | what the cast of the size to int does to a frame of 2^31 octets or more: refused, and from 2^32 on cut |
| `Wire.ParsePrintedField` | envelope.proto:3-9 | one printed field stores exactly its value, an elided one keeps the default |
| `IdentityStore.CreateProfile` | identity.cpp:61-99 | what the caller's identity holds, when creating succeeds, and which bytes the path holds, for every outcome of key generation, salt, key derivation, nonce, sealing, opening and writing |
| `IdentityStore.SealProfile` | identity.cpp:64-69 | the profile of the draws, or failure exactly when a draw, the derivation or the cipher fails |
| `IdentityStore.WriteFields` | identity.cpp:74-96 | the fields written one after the other are the printed profile |
| `IdentityStore.CreatedLoads` | identity.cpp:98 | the created profile loads with the same password exactly when all of it got to the file, which the check before the flush does not tell |
| `IdentityStore.CreatedLayout` | identity.cpp:74-96 | the 140 octets of a created profile: magic, version 1, 200000 iterations, and four fields behind their lengths |
| `IdentityStore.ProfileLimits` | identity.cpp:112-125 | the limits of a profile in numbers, and its size |
| `IdentityStore.StoredNumbersUsed` | identity.cpp:130-132 | loading takes salt and iterations from the file: a profile sealed under the key derived with its own numbers loads, whatever they are |
| `IdentityStore.LoadProfile` | identity.cpp:101-133 | succeeds exactly when the reference parser accepts the file and the password opens the box, with that identity; otherwise what the caller's identity holds |
| `IdentityStore.ReadProfile` | identity.cpp:105-128 | the stream part accepts exactly what the reference parser accepts, with the same fields, and leaves the identity as stated in either case |
| `IdentityStore.ReadHead` | identity.cpp:105-118 | the stream up to the nonce, against the reference parser |
| `IdentityStore.DecryptProfile` | identity.cpp:130-132 | the private key of a parsed profile under the derived key, or the error |
| `IdentityStore.CreateThenLoad` | identity.cpp:61-133 | a created profile loads with the same password to the same identity, also with bytes appended, and no strict prefix loads |
| `IdentityStore.AcceptedIffPrinted` | identity.cpp:101-128 | a file is accepted with some fields exactly when it begins with those fields printed and they are within the limits |
| `IdentityStore.AcceptedReprints` | identity.cpp:101-128 | re-printing the parsed fields of an accepted file gives the bytes consumed, at most 5196 |
| `IdentityStore.PrintedParses` | identity.cpp:74-96 | printed fields within the limits are parsed back, with any suffix |
| `IdentityStore.TruncatedOrExtended` | identity.cpp:101-128 | every strict prefix of a printed profile is rejected and any suffix leaves the result unchanged |
| `IdentityStore.FailedLoadEffect` | identity.cpp:122-132 | a failed load into an empty identity never makes it loaded; on a well-formed file it replaces the public key and keeps the private one; and exactly when it changes nothing |
| `IdentityStore.FailedLoadGenuine` | identity.cpp:120-132 | a failed load leaves a genuine identity loaded, and genuine exactly when the public key is kept |
| `IdentityStore.FailedLoadMixesKeys` | identity.cpp:122-132 | another identity's profile, whole or cut anywhere behind its public key, leaves a loaded identity whose halves do not belong together |
| `IdentityStore.CutInKey` | identity.cpp:122 | a file cut inside its public key: the octets there are replace the old ones, and an identity without a key gets zeros behind them |
| `IdentityStore.InputStream.Read` | identity.cpp:105-126 | a short read fills what there is and makes the failure sticky; a failed stream reads nothing |
| `IdentityStore.InputStream.ReadU32` | identity.cpp:107-124 | the next big-endian number, or the initial 0 after a failed read |
| `IdentityStore.InputStream.ReadCounted` | identity.cpp:112-126 | a length within its bounds and then that many bytes over a zeroed or resized buffer |
| `IdentityStore.FingerprintHex` | identity.cpp:177-186 | the loop writes the lower-case hexadecimal digits of the digest |
| `IdentityStore.HexInjective` | identity.cpp:180-184 | different digests have different fingerprints |
| `IdentityStore.HexAt` | identity.cpp:180-184 | two lower-case digits an octet, the high half first, and their values |
| `IdentityStore.FingerprintAt` | identity.cpp:177-186 | the 64 digits of a fingerprint spell the SHA-256 digest of the public key |
| `Relay.RoomTable.Join` | relay_server.cpp:36-43 | expired pointers dropped, the session appended, the room created if need be |
| `Relay.RoomTable.Snapshot` | relay_server.cpp:56-70 | the peers are the live members other than the caller, in join order, and only expired pointers leave the table |
| `Relay.RoomTable.Leave` | relay_server.cpp:81-90 | the session and expired pointers are removed, and an empty room with them |
| `Relay.RoomTable.Erase` | relay_server.cpp:40-41 | remove_if keeps the rest in order |
| `Relay.WithoutKeepsPlace` | relay_server.cpp:40-41 | each entry alone decides whether it stays; order and repetitions are kept |
| `Relay.SectionsTouchOneRoom` | relay_server.cpp:36-90 | on any table each section touches its room only, drops exactly the expired entries there, and adds the session at the end or removes it |
| `RelayInvariants.RegistryReached` | relay_server.cpp:36-43 | whenever the lock is free each room lists exactly the sessions that joined it and have not left, each once, in join order; a room is in the table exactly when it has such a session |
| `RelayInvariants.DisconnectedLeaves` | relay_server.cpp:52-90 | in every reachable state a failed read ends the loop: nothing is read any more and the session can leave; then it is in no room, its room is gone exactly when it was the last, and other rooms are unchanged |
| `RelayInvariants.OnlyWayOut` | relay_server.cpp:52-91 | a thread whose read has failed stays there, whatever others do, until it leaves, and then ends |
| `RelayInvariants.NeverStuck` | relay_server.cpp:34-91 | in every reachable state a thread that neither reads nor has ended has its next step enabled |
| `RelayInvariants.FanOutGoesOn` | relay_server.cpp:71-78 | a failed write does not stop the fan-out, and after its last peer the thread reads again |
| `RelayInvariants.LifeEnds` | relay_server.cpp:81-92 | from the way out a session leaves, its thread ends, its acceptor lets go, and it is freed unless somebody is writing to it |
| `RelayInvariants.FreedExactly` | relay_server.cpp:158-162 | a session object is freed exactly when its acceptor has let go, its thread has ended, and no fan-out holds it |
| `RelayInvariants.LifetimeReached` | relay_server.cpp:56-78 | no pointer in the table is ever expired, the clean-ups remove nothing, and every peer being written to is held by the writer's own vector, also after it has left |
| `RelayInvariants.DeliveryReached` | relay_server.cpp:49-79 | for every pair of sessions the frames of one written to the other are a contiguous block of the frames read, those snapshotted between its join and its leave, each attempted once and in order; every write comes from another session of the room |
| `RelayInvariants.LateJoinerMisses` | relay_server.cpp:56-70 | a session that is not in the table when a frame is snapshotted never gets that frame or an earlier one of its sender, whatever happens afterwards |
| `RelayInvariants.InvReached` | relay_server.cpp:34-92 | the whole relay invariant, holders included, in every reachable state |
| `RelayInvariants.WritesStayInRoom` | relay_server.cpp:61-78 | every write to a session is by another session of its room, of a frame that session has read |
| `RelayInvariants.PeersAre` | relay_server.cpp:61-65 | a snapshot holds exactly the other sessions of the room that have joined and not left |
| `RelayInvariants.TableAlive` | relay_server.cpp:162 | a session in the table is owned by its own thread |
| `RelayInvariants.CleanUpIsIdle` | relay_server.cpp:66-68 | sweeping the expired pointers changes neither table nor result |
| `RelayInvariants.OtherRoomUntouched` | relay_server.cpp:71-78 | a write in one room adds nothing to a session of another |
| `Loopback.Channel.SendTo` | tools/engine_loopback_test.cpp:23-29 | appends unless closed |
| `Loopback.Channel.ReceiveFrom` | tools/engine_loopback_test.cpp:31-38 | takes the oldest frame, also after closing, and fails only on a closed empty queue |
| `Loopback.Channel.Close` | tools/engine_loopback_test.cpp:75-76 | sets the flag and keeps the queue |
| `Loopback.FirstInFirstOut` | tools/engine_loopback_test.cpp:23-38 | any number of frames come out in the order they went in, also after closing, and nothing goes in then |
| `Loopback.BothThreadsFinish` | tools/engine_loopback_test.cpp:64-91 | with any failures, scheduling and finitely many spurious wake-ups every thread step lowers a natural number, and until both threads have ended one can run: neither stays blocked |
| `Loopback.LoopbackSucceeds` | tools/engine_loopback_test.cpp:82-105 | when no call fails both handshakes return true with equal keys, each peer is the other's identity, and the message decrypts to itself, at all clock readings |
| `Loopback.OrderReached` | tools/engine_loopback_test.cpp:23-38 | no wake-up is lost, closing is in order and frames are where they belong, in every reachable state |
| `Loopback.FaultlessReached` | tools/engine_loopback_test.cpp:64-91 | without faults every queued frame and every session is the expected one |
| `Loopback.ExpectedReached` | tools/engine_loopback_test.cpp:64-91 | whatever fails anywhere, a thread that returns true has the key and the peer it should, and every queued frame is the expected one |
| `Loopback.FaultsFail` | tools/engine_loopback_test.cpp:72-88 | a failed library call makes the handshake return false |
| `Loopback.FailureIsFinal` | tools/engine_loopback_test.cpp:72-88 | a handshake that has returned false stays so |
| `Loopback.EngineSetupValid` | tools/engine_loopback_test.cpp:93-105 | two connection engines satisfy the laws used |
| `TcpFraming.TcpTransport.Send` | tcp_transport.cpp:40-52 | writes the 32-bit big-endian length and, unless that is 0, the frame; returns false exactly when the connection fails first, and then what it took is a prefix of that |
| `TcpFraming.TcpTransport.WriteAll` | tcp_transport.cpp:44-46 | all octets, or failure after the prefix that was taken |
| `TcpFraming.TcpTransport.ReadExactly` | tcp_transport.cpp:57-61 | gathers exactly n bytes over any chunking, or fails with the stream used up |
| `TcpFraming.TcpTransport.Recv` | tcp_transport.cpp:54-67 | one frame off the stream, or failure when it ends too early |
| `TcpFraming.TcpTransport.RecvAll` | tcp_transport.cpp:54-67 | repeated receiving returns exactly the list that was sent, whatever the chunking, and then fails with nothing left |
| `TcpFraming.AllFramesReturn` | tcp_transport.cpp:40-67 | every list of frames below 2^32 bytes, empty ones included, is read back |
| `TcpFraming.UnframedFramed` | tcp_transport.cpp:42-61 | a frame is read back with the stream right behind it exactly when it is shorter than 2^32 bytes |
| `TcpFraming.FramedOctets` | tcp_transport.cpp:42-46 | four octets of length, the most significant first, then the frame |
| `ByteStrings.NetworkOrder` | tcp_transport.cpp:43 | the weight of each of the four octets |
| `TcpFraming.FramingInjective` | tcp_transport.cpp:40-52 | different lists of such frames have different bytes |
| `TcpFraming.CutStream` | tcp_transport.cpp:54-67 | a stream cut anywhere yields a prefix of the frames and no partial one |
| `TcpFraming.WholeFramesReturn` | tcp_transport.cpp:54-67 | exactly the frames wholly inside the cut come back |
| `TcpFraming.FailedSend` | tcp_transport.cpp:40-52 | a send that fails midway leaves the receiver the frames before it and no other |
| `Query.Escape` | relay_server.cpp:98-99 | the octet that hexadecimal extraction from two characters gives, malformed pairs included |
| `Query.EscapeIsExtracted` | relay_server.cpp:98-99 | for any two characters the escape is the low octet of the number that stream extraction in base 16 takes from them: white space, sign and digits |
| `Query.HexDigitValue` | relay_server.cpp:98 | the 22 digits and their values, and no other |
| `Query.UrlDecode` | relay_server.cpp:94-104 | the index loop computes the reference decoding |
| `Query.DecodeInverts` | relay_server.cpp:94-104 | decoding inverts every percent-encoding of every octet string, whichever characters it escapes |
| `Query.EscapedEncodes` | relay_server.cpp:97-99 | every octet string has such an encoding |
| `Query.DecodedIsSame` | relay_server.cpp:96-102 | decoding changes nothing exactly when there is no plus and no percent sign with two characters behind it |
| `Query.GetQueryValue` | relay_server.cpp:106-121 | the scan over positions terminates with the reference value |
| `Query.FirstPairWins` | relay_server.cpp:106-121 | on every query of encoded parts joined by '&', with or without an '=' when the value is empty, the value of the first pair with the key, or empty; empty too without a query |
| `RoomUrl.WsJoin` | relay_cli.cpp:14-28 | the in-place edits give the joined URL, for every base |
| `RoomUrl.ParseWsUrl` | beast_ws_transport.cpp:20-39 | scheme, host, port and target by the branches, or failure without "://" or host |
| `RoomUrl.HostAndPort` | beast_ws_transport.cpp:29-36 | split at the last colon; without one the port is 443 for wss and 80 otherwise |
| `RoomUrl.AcceptTarget` | relay_server.cpp:144-156 | refuses targets outside "/ws", takes the query value, empty means "default" |
| `RoomUrl.TargetsTaken` | relay_server.cpp:145 | any target that starts with "/ws" is taken, and no other |
| `RoomUrl.RoomInLine` | relay_server.cpp:128-129 | behind any path, a room is read from the request line as far as a target can carry it, and only if nothing or a line end follows there |
| `RoomUrl.CarriedIff` | relay_server.cpp:128 | a target can carry a string exactly when it can carry each character |
| `RoomUrl.JoinedBare` | relay_cli.cpp:14-28 | a base of scheme and authority gets the path "/ws", once, and the room as its only query |
| `RoomUrl.JoinedPathed` | relay_cli.cpp:14-28 | a base that has a path keeps it, and its query, if any, is continued |
| `RoomUrl.ParsedRoomUrl` | beast_ws_transport.cpp:20-39 | such a URL parses to that authority, split at its last colon, with the room in the target |
| `RoomUrl.RoomSurvives` | relay_server.cpp:144-156 | a non-empty room name reaches the relay unchanged exactly when it has no '&', no '+', no '%' with two characters behind it, and no white space or control character |
| `RoomUrl.RoomsShared` | relay_server.cpp:106-156 | for all room names and schemes, two clients on one authority share a room exactly when both names lead to one and to the same: the name must fit a request target, and what counts is the part before the first '&', decoded, "default" if that is empty |
| `RoomUrl.RoomOf` | relay_server.cpp:125-163 | for all names, the room a client reaches is the one asked for, and none if the relay cannot read the request line |
| `RoomUrl.PlainIsEffective` | relay_server.cpp:94-104 | a non-empty name is its own effective room exactly when it has no '&', no '+' and no '%' with two characters behind it |
| `RoomUrl.PlainRoomsShared` | relay_cli.cpp:14-28 | two clients with such names share a room exactly when the names are equal, and do reach one |
| `RoomUrl.DifferentNamesMeet` | relay_server.cpp:97-100 | the names a+b and a%20b meet in one room, and the name "a b" reaches none |
| `RoomUrl.UrlHostBare` | relay_cli.cpp:36-42 | the pin key of such a base is its authority |
| `RoomUrl.UrlHostOf` | relay_cli.cpp:36-42 | the host of any URL with a path, and of a bare authority |
| `Pins.PinStore.LoadPin` | relay_cli.cpp:98-106 | the value of the first pair of words with the key |
| `Pins.PinStore.SavePin` | relay_cli.cpp:107-112 | a line appended exactly when the key is absent and the file can be written |
| `Pins.PinStore.Admit` | relay_cli.cpp:113-124 | admitted exactly when there is no pin or it is the peer's, and the file afterwards |
| `Pins.FirstPinStays` | relay_cli.cpp:97-124 | over every sequence of runs a pin on file stays; an unpinned key gains exactly one line, with the peer of the first run that can write it, or none if there is none |
| `Pins.FirstWrittenIsFirst` | relay_cli.cpp:121-124 | that run is the first one for the key that can write |
| `Pins.SamePeerForEver` | relay_cli.cpp:113-124 | once a run has reached the chat with its pin on file, a later run with that key reaches it exactly when it meets the same fingerprint |
| `Pins.FirstUseTrusted` | relay_cli.cpp:113-124 | without a pin any peer is admitted and becomes the pin if the file can be written; with one, another peer is turned away and the file is left alone |
| `Pins.OneRun` | relay_cli.cpp:107-112 | a run adds at most its own key's entry and leaves every other key's pin and entries alone |
| `Pins.PinReadBack` | relay_cli.cpp:107-112 | a new pin can be read back exactly when the file held an even number of words and ended in white space |
| `Pins.LineAppended` | relay_cli.cpp:111 | a line appended to such a file is exactly one more pair |
| `Pins.LineText` | relay_cli.cpp:111 | a line is the key, one blank, the value and a line feed |
| `Pins.OnlyAppended` | relay_cli.cpp:111 | what was on file stays there, in front |
| `Pins.PinKeysDiffer` | relay_cli.cpp:113 | authorities without '#' share a pin key only for one authority and one room |
| `Pins.FingerprintIsWord` | identity.cpp:177-186 | a fingerprint is never empty and has no white space |
| `Text.SpaceCharacters` | relay_cli.cpp:102 | white space is blank, tab, line feed, vertical tab, form feed and carriage return |
| `Pins.Input.Next` | relay_cli.cpp:102 | extraction skips white space and takes the next word |

## Left out

- The inside of AES-GCM, HKDF, PBKDF2, Ed25519, SHA-256 and Kyber: parameters with laws (`Crypto.Lawful`); Kyber decapsulation of an honest ciphertext is taken as always correct, as its failure rate is negligible and is not decided by this code.
- Sockets, TLS, HTTP and WebSocket framing: frames and bytes arrive in order, or the call fails; one write to a WebSocket is one step.
- Protocol Buffers groups in unknown fields: rejected in the model; no schema of the program has one.
- Field numbers above 15 in a schema: the program has none, and the printer's tags are then one byte.
- `gui/`, `ws_transport.cpp`, `client.cpp`, `server.cpp`, command-line parsing, build and deploy files: user interface and wiring.
- Allocation failure, a failing check whether the profile path exists, and exceptions other than those the functions raise themselves.
- Agreement on the peer's identity and on the protocol version: the signed strings contain neither, and `version` is never checked on receipt.
- Freshness of a hello on the server side, and replay, reordering or reflection of message frames inside a session: the code does not prevent them. Message authenticity therefore says "sealed in the same session", not by which side or how often.
- Agreement.ClientAgreement: agreement rests on fresh KEM keys and ciphertexts and on signatures of engines verifying only what the engine signed; foreign keys verify arbitrarily.
- Agreement.ServerOrigin: like client agreement it is about engines whose signing key is the private half of the public key they send. An engine that has lost this through a failed load (see `IdentityStore.FailedLoadMixesKeys`) makes signatures that do not verify under that key, and is outside the machine.
- Secrecy.SessionKeySecret: symbolic, over the closure rules of the primitives, not computational. Identity keys may be lost after the state in question; engines that go on with a lost identity key, and loss of KEM or session keys, are not modelled.
- EndToEnd.ConversationSafe: the host is in the room table before the relay fans out the guest's hello, the two sessions stay, and reads and writes between them succeed; the pin check that may end a client before the chat, and lines longer than the limit, are not part of it.
- EndToEnd.ConversationCompletes: frames delivered and steps enabled, with no fairness assumption; the end of a client at end of input is not modelled.
- The order of frames from different senders at one receiver: the relay gives none beyond the order of its writes.
- Loopback.BothThreadsFinish: spurious wake-ups are finitely many; joining the server thread is a step of its own.
- Query.Escape: the stream extraction of two characters in the C locale, without digit grouping.
- RoomUrl.RoomSurvives: bases with a path or a query are covered by `RoomUrl.JoinedPathed` up to the joined URL, bases without a scheme by `RoomUrl.WsJoin`, but not by the theorem.
- RoomUrl.RoomOf: of the HTTP request only the request line is modelled, read as Boost.Beast reads it: a target of printable characters and octets from 128 on. What stands behind a line break inside a name is taken to be header lines in order.
- Pins.PinStore.SavePin: a line is written whole or not at all; two clients writing the file at once, and a file that exists but cannot be read, are not modelled.
- Pins.FirstPinStays: keys with white space are outside it, since they cannot be read back as one word.
