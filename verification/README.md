# A verified model of syncthing-socket

syncthing-socket pipes bytes between two machines that find each other through Syncthing's discovery
and relay servers, and uses that to unlock LUKS disks at boot. This project models the parts whose
correctness is easy to get wrong, and proves what each of them is for.

- **The OpenPGP exporter.** `Bytes`, `Gf2`, `Parity`, `CrcRegister`, `Crc24`, `Mpi`, `Packet`, `Armor`,
  `OpenPgpKey`, `ArmoredKey` and `Scalar` model the hand-written encoder against readers written from
  RFC 4880. The checksum is characterised over GF(2): the nested loop computes the unique remainder of the
  message polynomial, two inputs collide exactly when the generator divides their difference, and every
  burst of up to 24 bits and every error in an odd number of bits is caught. The armored key files read back
  to the seed, and the signature in them covers the key in them.
- **The pipe.** `Pipe` is two ends with four copiers and two byte queues, over every interleaving, chunk
  size and timer. `Copy` is the copy loop against every reader and writer. `RelayRace` is the relay race and
  its drainer.
- **Announcing and being found.** `Announce` is the announce loop, first over events and then over real time;
  `Readiness` is what the phone concludes from the record, up to the exact condition under which an unlock is
  confirmed.
- **The password agent and its configuration.** `AskFile` and `LuksAgent` model the endless loop over
  systemd's request directory. `LuksDump` and `TokenStore` model the LUKS2 token store with its one writer
  and its two readers, one of which decodes JSON while the other matches text.
- **Framing and authentication.** `Framing` reads length-prefixed messages under every chunking;
  `Auth` runs the challenge and response byte by byte over two streams.

`Text` holds the string functions used, `Wrappers` the option type. `dafny verify dfyconfig.toml` checks
everything.

Where a statement is about a number of a standard, a word of a file format or a constant of the source, it writes
it out instead of naming the model's own constant, and the readers of the round trips are written from the
standard and share no checksum, sum or table with the writers.

## What the outside is assumed to do

Networks, clocks, timers, the discovery server, cryptsetup, systemd, the SHA and Ed25519 primitives and
`encoding/json` are parameters: scripts, schedules, choices of the scheduler, or functions with stated laws
(`OpenPgpKey.Crypto.Lawful`, `Auth.Lawful`). Theorems quantify over all of them.

## Where the code does less than its documentation suggests

Each of these is stated with its exact condition over all inputs, and an input or a run that shows the failure is
either part of that statement or a lemma of its own.

- A pipe delivers in both directions exactly on a half-closing transport whose grace timer does not fire
  (`Pipe.TwoWayIff`); in one direction it also does so on a data channel, given the quiet rule and a complete
  flush (`Pipe.OneWayIff`); four lemmas give runs that lose data in the other settings. Two ends that both have
  nothing to send wait for each other (`Pipe.StuckIff`).
- A confirmed unlock needs the last announcement to be stamped less than 55 seconds after the check began,
  not merely within the window's full cycle (`Readiness.ConfirmsIff`).
- Binding removes every token whose text mentions "type" and later "syncthing-socket", also somebody
  else's (`TokenStore.ForeignTokenRemoved`); exactly the others survive (`TokenStore.Device.RemoveOurs`).
- A relay race leaks a session exactly when its caller is cancelled and a racer joins; what leaks is what is left
  unread in the channel (`RelayRace.LeaksIff`, `RelayRace.SessionsConserved`, `RelayRace.CancelledRaceLeaks`).
- Multiprecision integers and packets read back exactly below a size, because their length fields are truncated
  (`Mpi.RoundTripIff`, `Packet.RoundTripIff`). A subpacket reads back exactly below 191 bytes of data, because from
  192 on its length octet starts the two-octet form (`Packet.SubRoundTripIff`). A frame reads back exactly up to
  10 MiB, the limit its reader checks (`Framing.RoundTripIff`).

The comments in the source allow for one missed announcement. The model shows the exact number: five requests
refused in a row still read as WAITING, and a machine at its prompt is not taken for unlocked, however slow the
lookups; a sixth can make it read as STALE (`Readiness.ToleratedIff`, `Readiness.NeverConfirmedIff`).

## Model

| member | source | states |
|---|---|---|
| `CrcRegister.Run` | scripts/openpgp_key.go:214-226 | the two loops and the final mask compute the register function, below 2^24, for any start and any generator of degree 24 |
| `CrcRegister.BitStepDivides` | scripts/openpgp_key.go:218-223 | one shift-and-reduce step keeps the register congruent to x times the message, modulo the generator |
| `CrcRegister.RegisterIsRemainder` | scripts/openpgp_key.go:214-226 | the register ends as the remainder of the message polynomial, by induction over the bytes |
| `Gf2.RemainderUnique` | scripts/openpgp_key.go:214-226 | polynomial division leaves one remainder only |
| `Crc24.Compute` | scripts/openpgp_key.go:214-226 | the loops compute the one remainder of x^24 times the message, started with 0xB704CE, by 0x1864CFB, the numbers of section 6.1 of RFC 4880 |
| `Crc24.ChecksumIs` | scripts/openpgp_key.go:214-226 | the same of the checksum function the armor uses |
| `Crc24.CollisionIff` | scripts/openpgp_key.go:214-226 | inputs of one length share a checksum if and only if the generator divides their difference |
| `Crc24.OddErrorDetected` | scripts/openpgp_key.go:214-226 | inputs of one length that differ in an odd number of bits never share a checksum |
| `Crc24.BurstDetected` | scripts/openpgp_key.go:214-226 | any nonzero difference within 24 consecutive bits changes the checksum, at any length |
| `Crc24.ThreeByteErrorDetected` | scripts/openpgp_key.go:214-226 | inputs that differ inside three consecutive bytes never share a checksum |
| `Mpi.LeadingZeros8` | scripts/openpgp_key.go:81-90 | the loop counts eight minus the bit length |
| `Mpi.Encode` | scripts/openpgp_key.go:66-79 | the strip loop and the count produce the encoding the lemmas are about |
| `Mpi.BitCountExact` | scripts/openpgp_key.go:66-79 | the count written is the bit length of the integer and the body its minimal byte string |
| `Mpi.RoundTripIff` | scripts/openpgp_key.go:66-79 | an RFC 4880 reader recovers the integer and stops at its end if and only if it has fewer than 65536 bits |
| `Mpi.EqualIff` | scripts/openpgp_key.go:66-79 | two encodings are equal if and only if they denote the same integer |
| `Mpi.PadRestores` | scripts/openpgp_key.go:66-79 | padding the stripped bytes to their old length restores them |
| `Packet.LengthRoundTrip` | scripts/openpgp_key.go:133-146 | a length reads back in all three tiers, modulo 2^32 in the last |
| `Packet.RoundTripIff` | scripts/openpgp_key.go:133-146 | a packet reads back and nothing after it is consumed if and only if its tag is below 64 and its body below 2^32 bytes |
| `Packet.SplitsBack` | scripts/openpgp_key.go:133-146 | a concatenation of fitting packets splits into exactly those packets |
| `Packet.UniqueSplit` | scripts/openpgp_key.go:133-146 | no two lists of fitting packets share an encoding |
| `Packet.SubRoundTripIff` | scripts/openpgp_key.go:149-152 | a subpacket reads back if and only if its length octet stays below 192 |
| `Packet.SubsSplitBack` | scripts/openpgp_key.go:149-152 | a subpacket area splits into exactly its subpackets |
| `OpenPgpKey.PublicRoundTrip` | scripts/openpgp_key.go:93-107 | a reader recovers time, algorithm, curve and point from the public key body, and what follows it |
| `OpenPgpKey.WriteSecretKeyBody` | scripts/openpgp_key.go:109-119 | the checksum loop writes the secret key body the reader is proved on |
| `OpenPgpKey.SumIs` | scripts/openpgp_key.go:114-117 | the loop's 16-bit sum, which wraps at every step, is the sum of all octets modulo 65536 |
| `OpenPgpKey.SecretRoundTrip` | scripts/openpgp_key.go:109-119 | a reader that adds up all octets and compares modulo 65536 recovers the public key and all 32 seed bytes, leading zeros included |
| `OpenPgpKey.SubpacketsFit` | scripts/openpgp_key.go:156-198 | every subpacket of the self-signature is below the one-octet length limit |
| `OpenPgpKey.SignatureRoundTrip` | scripts/openpgp_key.go:156-198 | the signature packet reads back to its type, subpackets, signed prefix, digest start and both halves |
| `OpenPgpKey.SecretKeyRoundTrip` | scripts/openpgp_key.go:200-204 | the transferable secret key reads back to seed, user id and certification, for every user id below 2^32 bytes |
| `OpenPgpKey.PublicKeyRoundTrip` | scripts/openpgp_key.go:206-211 | likewise the transferable public key |
| `OpenPgpKey.HashInputReads` | scripts/openpgp_key.go:171-183 | a reader written from section 5.2.4 of RFC 4880 splits what is hashed into key body, user id and signed part, for every three of them whose lengths fit |
| `OpenPgpKey.HashInputUnique` | scripts/openpgp_key.go:171-183 | two byte strings which that reader splits alike are the same, so the split determines what was signed |
| `OpenPgpKey.CurveIsEd25519` | scripts/openpgp_key.go:52-53 | the curve bytes decode by the rules of X.690 to 1.3.6.1.4.1.11591.15.1 |
| `OpenPgpKey.CertificationCoversKey` | scripts/openpgp_key.go:121-211 | in the exported secret key the signature is a positive certification by EdDSA with SHA-256, made at the fixed time, naming the fingerprint of the key beside it; its two halves are the signature, under the exported seed, over bytes that the RFC 4880 reader splits into exactly that key, that user id and the signed part of that packet; and the public point belongs to the seed |
| `Armor.Alphabet` | scripts/openpgp_key.go:229 | the arithmetic alphabet of the model is the table in the source |
| `Armor.Encode` | scripts/openpgp_key.go:230-250 | the encoding closure's loop computes radix-64 |
| `Armor.Radix64RoundTrip` | scripts/openpgp_key.go:230-250 | decoding returns every byte string, for all three padding cases |
| `Armor.WriteLines` | scripts/openpgp_key.go:256-264 | the loop writes the body in lines of 64, or part of that and an error, over every writer |
| `Armor.Write` | scripts/openpgp_key.go:228-272 | the writer receives the whole armored text, or part of it with an error, and there is an error if and only if the writer reported one, also one that had taken everything |
| `Armor.WrappedBody` | scripts/openpgp_key.go:256-268 | no wrapped line starts like the checksum line, so a reader joins the lines to exactly the body |
| `Armor.WrapLength` | scripts/openpgp_key.go:256-264 | the wrapped body has one newline for every full line and one for the last |
| `Armor.WrapAt` | scripts/openpgp_key.go:256-264 | every character of the wrapped body, by line and column: a newline in column 64 and at the end, the body's own characters in order elsewhere |
| `Armor.ArmorRoundTrip` | scripts/openpgp_key.go:228-272 | an RFC 4880 reader, which divides the data anew to check the sum, recovers block type, data and checksum, for every data and every one-line type |
| `ArmoredKey.FilesReadBack` | scripts/generate_keystore.go:251-282 | the private file yields the seed and a self-certified key, the public file the same public key, user id and signature |
| `Scalar.Derive` | scripts/generate_keystore.go:87-89 | the scalar lies between 1 and n - 1 |
| `Scalar.Preimages` | scripts/generate_keystore.go:80-95 | every scalar from 1 to n - 1 has one 32-byte input, or exactly two when it is at most 2^256 - (n - 1), and no other |
| `Pipe.OutputIsPrefix` | main.go:1313-1352 | in every reachable state each stdout is a prefix of the peer's stdin |
| `Pipe.RunsAreBounded` | main.go:1313-1352 | no interleaving and no timer keeps the two ends busy for ever |
| `Pipe.StuckIff` | main.go:1313-1352 | when nothing can move, both calls have returned if and only if some end had something to send |
| `Pipe.OneWayDelivers` | main.go:1313-1352 | with the quiet rule and a complete flush the receiver that returned holds the whole payload |
| `Pipe.TwoWayDelivers` | main.go:1313-1352 | on a half-closing transport without the grace timer both directions arrive whole |
| `Pipe.LoudReceiverLoses` | main.go:1323-1336 | without the quiet rule a receiver can cut off what it waits for |
| `Pipe.CutFlushLoses` | webrtc.go:122-130 | a flush that gives up loses the payload |
| `Pipe.ResetCutsSender` | webrtc.go:122-130 | on a data channel the end that finishes first cuts the other off |
| `Pipe.GraceCutsSender` | main.go:1343-1351 | elsewhere the grace timer does |
| `Pipe.OneWayIff` | main.go:1313-1352 | the settings in which every one-way transfer is delivered, exactly |
| `Pipe.TwoWayIff` | main.go:1313-1352 | the settings in which every two-way transfer is delivered, exactly |
| `Pipe.OneWayCompletes` | main.go:1313-1352 | any way of running a guarded one-way transfer to its end delivers the payload and ends both calls |
| `Copy.CopyWithTrace` | logging.go:158-192 | the sink gains exactly the first `written` bytes of the source, all of them unless the writer refused, and the error says who ended it |
| `Copy.DataIs` | logging.go:158-192 | what is there to copy: every chunk up to and including that of the reader's first error, and that error, or the end if there is none |
| `RelayRace.InvStep` | main.go:687-767 | every step of racers, caller and drainer conserves results and sessions |
| `RelayRace.RacersCounted` | main.go:687-725 | there is one racer for each address that parses |
| `RelayRace.RacersNeverBlock` | main.go:687-767 | a racer holding a result can always send it |
| `RelayRace.RunsAreBounded` | main.go:687-767 | every race ends |
| `RelayRace.SessionsConserved` | main.go:687-767 | once no goroutine can move, whether or not the context was cancelled, the caller has returned, every racer has reported, every losing session is closed, the winner's is not, and what leaks is exactly what a cancelled caller left unread |
| `RelayRace.LeaksIff` | main.go:687-767 | some session leaks if and only if the caller was cancelled and some racer joined |
| `RelayRace.CancelledRaceLeaks` | main.go:687-767 | a run that leaks one |
| `Announce.KeyInjectiveIff` | main.go:495-506 | over all the lists one server can produce two share a key if and only if they are equal or both blank, and a key is empty if and only if the list is blank: no direct port and no relay with a URL |
| `Announce.AddressesAre` | main.go:495-506 | the relay's URL comes first and unchanged; listening adds one entry, tcp://: and the decimal port in use; not listening adds none |
| `Announce.NamelessRelayCollides` | main.go:495-506 | the one collision, at the interface: a relay with an empty URL, which no relay client yields, shares its key with no address |
| `Announce.Loop` | main.go:554-601 | the loop produces the requests and the key of its specification |
| `Announce.LastIsAcknowledged` | main.go:554-601 | in every run, over any lists, the remembered key is that of the last request accepted since the latest refresh, and empty if there is none |
| `Announce.AttemptIff` | main.go:554-601 | in every run a turn sends a request if and only if there is an address, it is not the one last acknowledged since the refresh, and it is not a blank one with nothing acknowledged |
| `Announce.AgeBound` | main.go:522-604 | during a turn after k refused requests in a row no reader finds a record from the future or one older than Span(k) + 10 s, where Span(k) is 60 + 15k s up to four refusals and 55 + 15k s from five on |
| `Announce.RecordStaysFresh` | main.go:522-604 | the same at every instant of every schedule of requests, timers and waits since the start |
| `Announce.RecordStays` | main.go:522-604 | a record that is there at one instant of a schedule is there at every later one |
| `Announce.SpanReached` | main.go:522-604 | a schedule that reaches Span(k) for every k up to five, and 140 s with a sixth refusal |
| `Readiness.WaitingReadsAsWaiting` | mobile/mobile.go:138-195 | at every instant of every schedule with at most five refused requests in a row, a lookup that takes up to 10 s and ages the record when it has answered reads WAITING |
| `Readiness.StatusMeaning` | mobile/mobile.go:161-195 | an error exactly for a blank id; out of reach is NO_NETWORK, no record ABSENT, an undated one STALE, all with age -1; a dated one is WAITING exactly up to 150 s, with its age in whole seconds, 0 if it lies in the future |
| `Readiness.ToleratedIff` | mobile/mobile.go:133-195 | a phone clock ahead by at most 150 - (Span(k) + 20) s reads WAITING at every lookup, for every k; up to five refusals that is exact, more than five are not tolerated by a clock less than 10 s behind, and a right clock tolerates k refusals if and only if k is at most five |
| `Readiness.VerifyUnlocked` | android/app/src/main/java/com/github/muelli/syncthingsocket/MainActivity.kt:470-498 | the loop returns the verdict: success if and only if some poll in the window finds the record stale or gone, otherwise blame if some poll reads WAITING, otherwise unverified |
| `Readiness.StillWaiting` | android/app/src/main/java/com/github/muelli/syncthingsocket/MainActivity.kt:470-498 | over every schedule of announcements with tolerated refusals and every schedule of polls, the verdict on a machine still at its prompt is not accepted if a poll got through, and unverified if none did |
| `Readiness.NeverConfirmedIff` | android/app/src/main/java/com/github/muelli/syncthingsocket/MainActivity.kt:470-498 | a waiting machine is never taken for unlocked, over all those schedules, if and only if the refusals are tolerated: with a right clock, at most five in a row |
| `Readiness.UnreachableIsUnverified` | android/app/src/main/java/com/github/muelli/syncthingsocket/MainActivity.kt:470-498 | if every poll made either threw or asked with discovery out of reach, the verdict is unverified |
| `Readiness.GoneIsSuccess` | android/app/src/main/java/com/github/muelli/syncthingsocket/MainActivity.kt:470-498 | if some poll made finds no record, or one without a date, the verdict is success |
| `Readiness.LatePollConfirms` | android/app/src/main/java/com/github/muelli/syncthingsocket/MainActivity.kt:470-498 | with a last announcement before 55 s the verdict is success, however long the lookups take |
| `Readiness.ConfirmsIff` | android/app/src/main/java/com/github/muelli/syncthingsocket/MainActivity.kt:470-498 | the verdict is success under every schedule of lookups if and only if the last announcement was stamped before 55 s, corrected for the clock |
| `AskFile.ParseAskFile` | luks_agent.go:84-121 | the scan loop computes the parsed request |
| `AskFile.AssignmentOf` | luks_agent.go:88-98 | a line with a trimmed key, an equals sign and any value gives that key and the trimmed value |
| `AskFile.NoAssignment` | luks_agent.go:88-95 | a blank line, a comment, a section header and a line without an equals sign give nothing, also when indented |
| `Text.Spaces` | luks_agent.go:88 | the characters TrimSpace takes away are exactly the 25 with the Unicode property White_Space |
| `Text.TrimOf` | luks_agent.go:88 | and it takes away those at both ends and nothing between |
| `AskFile.AskFileReads` | luks_agent.go:84-121 | the file systemd writes reads back to its socket, id and deadline, for every socket, id and 64-bit deadline |
| `AskFile.Wanted` | luks_agent.go:122-131 | a request expires at its deadline, if it has one, and is for us exactly when its id starts with cryptsetup |
| `AskFile.ReadMeaning` | luks_agent.go:84-121 | each field holds what the last line for it said, and every deadline line must parse |
| `AskFile.ParseIff` | luks_agent.go:84-121 | a request is usable if and only if the file was read whole, every deadline parses and it names a socket |
| `LuksAgent.Agent.PendingRequests` | luks_agent_linux.go:139-195 | one scan returns the pending requests, marks the rejected ones and forgets the gone ones |
| `LuksAgent.Agent.Poll` | luks_agent_linux.go:53-132 | one turn of the loop takes the state to the specified next state |
| `LuksAgent.Agent.Run` | luks_agent_linux.go:53-132 | over any number of turns every reply answers the n-th pending request of some round with that round's n-th passphrase, which opened the device that round's configuration names, if any; and no path is answered twice unless its file went away in between |
| `LuksAgent.Collected` | luks_agent_linux.go:139-195 | the requests collected are distinct, come from usable files and were not answered before; only rejected files are newly marked |
| `LuksAgent.JudgeIff` | luks_agent_linux.go:152-183 | an entry is taken up exactly when it is an unanswered ask. file that opens, and is pending exactly when it also reads whole, parses, has not expired and is about cryptsetup |
| `LuksAgent.RejectedMarked` | luks_agent_linux.go:163-182 | every entry that is rejected is marked as answered |
| `LuksAgent.DeliverySafe` | luks_agent_linux.go:53-195 | the same as a theorem over the functions of a run |
| `LuksAgent.TurnAnswers` | luks_agent_linux.go:53-132 | a turn takes up a path only to reject it, to answer it, or because nothing is configured |
| `LuksAgent.UnconfiguredGivesUp` | luks_agent_linux.go:84-91 | a round that finds nothing configured gives up its pending requests for good and replies to none |
| `LuksAgent.FailuresKeepPending` | luks_agent_linux.go:53-132 | however often fetching, checking or sending fails, an unanswered request stays unanswered |
| `LuksAgent.PendingIsAskedAgain` | luks_agent_linux.go:139-195 | and the next scan that lists its file puts it before the agent again |
| `LuksAgent.TurnRepliesIff` | luks_agent_linux.go:53-132 | a turn replies to a path if and only if its round is configured and the attempt for that pending request fetches a passphrase, opens the device if one is named, and is sent |
| `LuksAgent.PendingIsAnswered` | luks_agent_linux.go:53-195 | over whole runs: however often it failed before, a request nobody rejected is answered in the first configured round that lists it usable and whose attempt succeeds |
| `LuksAgent.ScanForgetsGone` | luks_agent_linux.go:139-195 | in every run, after a turn that scanned, an answered path is still remembered unless its file was found gone, and a path found gone is remembered only if that very scan listed it as a request |
| `LuksDump.TokenIdsFromDump` | luks_agent.go:249-273 | the scan loop computes the ids function |
| `LuksDump.LineKinds` | luks_agent.go:252-257 | a line of a section starts with a space or a tab, the section wanted is headed Tokens: |
| `LuksDump.AtoiNumber` | luks_agent.go:268 | a decimal is read as itself, with or without a sign, exactly within 64 bits |
| `LuksDump.AtoiOther` | luks_agent.go:268 | nothing, a sign alone and whatever has another character after the first are not numbers |
| `LuksDump.EntryReads` | luks_agent.go:261-270 | an entry reads back to its id if and only if its trimmed type is the wanted one |
| `LuksDump.DumpLists` | luks_agent.go:249-273 | over every dump the result is exactly the ids of the wanted type, ascending |
| `TokenStore.ReadConfig` | contrib/initramfs-luks/syncthing-socket-initramfs-top:57-100 | the shell loop returns the first matching token of version 1 |
| `TokenStore.ShellReadsFirst` | contrib/initramfs-luks/syncthing-socket-initramfs-top:57-100 | it is what the text of the first matching token of version 1 says, if that has a seed, with role client if it names none |
| `TokenStore.SedStringLast` | contrib/initramfs-luks/syncthing-socket-initramfs-top:86-91 | on any text sed finds the string after the last key and colon that has one |
| `TokenStore.SedNumberLast` | contrib/initramfs-luks/syncthing-socket-initramfs-top:77-78 | and the digits, if any, after the last key and colon |
| `TokenStore.ScanDevicesForConfig` | luks_agent.go:330-356 | the two loops return the first usable token of the first disk that has one |
| `TokenStore.ScanFindsFirst` | luks_agent.go:330-356 | over any number of disks and any dumps of them: the lowest id that is listed as ours and that Go takes, on the first disk that has one, and nothing exactly when no disk has one |
| `TokenStore.ParseIff` | luks_agent.go:166-199 | the tokens Go takes and what it takes from them: every known field of its type or null, our type, version 1, a seed, an optional holder, and role client, server or none |
| `TokenStore.DecodedIsLast` | luks_agent.go:166-170 | a field has the value of the last key of its name that is not null |
| `TokenStore.FoldIff` | luks_agent.go:166-170 | a key has a name if it agrees letter by letter but for case, the long s and the Kelvin sign |
| `TokenStore.MatchesIff` | contrib/initramfs-luks/syncthing-luks-bind:63-64 | a token is matched exactly when its text has the string type and, somewhere after it, the string syncthing-socket |
| `TokenStore.TextReadsBack` | contrib/initramfs-luks/syncthing-luks-bind:59 | the exported text is JSON that reads back to the token, for every token whose lists and objects are closed |
| `TokenStore.Device.RemoveOurs` | contrib/initramfs-luks/syncthing-luks-bind:57-70 | the loop removes exactly the tokens whose text matches, up to the first whose removal fails; a token that nowhere has our name is still there, unchanged |
| `TokenStore.FirstStuck` | contrib/initramfs-luks/syncthing-luks-bind:57-70 | it stops at the lowest matching id whose removal fails |
| `TokenStore.Device.Bind` | contrib/initramfs-luks/syncthing-luks-bind:10-79 | without a fourth argument the role is client; usage, role and device errors change nothing; a failing removal or import ends the script with exactly the tokens removed until then gone; otherwise the new token is in the lowest free slot; and whatever fails, every token that does not match is still there, unchanged, so every token that nowhere has our name |
| `TokenStore.OursMatches` | luks_agent.go:166-199 | every token of our type, and every listed one Go would take, is one the shell matches |
| `TokenStore.SedReadsFields` | contrib/initramfs-luks/syncthing-socket-initramfs-top:77-91 | on tokens whose lists hold no strings, matching the text finds the last value of each key |
| `TokenStore.ShellReadsOurs` | contrib/initramfs-luks/syncthing-socket-initramfs-top:73-93 | the shell reads seed, holder and role of the token that is written |
| `TokenStore.GoReadsOurs` | luks_agent.go:166-199 | and so does Go |
| `TokenStore.BindThenRead` | contrib/initramfs-luks/syncthing-luks-bind:57-79 | for every prior header with room, binding leaves one token of ours, bound to no keyslot, and the Go scan over any dump of the device and the shell both return what was bound |
| `TokenStore.FullIff` | contrib/initramfs-luks/syncthing-luks-bind:57-79 | there is no room if and only if 32 tokens that do not match fill the header, and then nothing was removed |
| `TokenStore.ForeignTokenRemoved` | contrib/initramfs-luks/syncthing-luks-bind:63-68 | a token of another type that mentions our name is removed |
| `Framing.Conn.ReadFull` | auth.go:48-60 | under every chunking exactly the wanted bytes, or an error when the stream ends early |
| `Framing.Conn.ReadMessage` | webrtc.go:38-51 | under every chunking the first message and nothing after it, or an error |
| `Framing.Conn.SendMessage` | webrtc.go:24-36 | the two writes append one frame, or part of it and an error, and there is an error if and only if a write failed |
| `Framing.RoundTripIff` | auth.go:34-62 | a frame decodes to its body, leaving exactly what follows, if and only if the body is within 10 MiB |
| `Framing.DecodeIff` | auth.go:48-62 | what a reader takes for a message is a frame of at most 10 MiB and nothing else |
| `Framing.FramesRoundTrip` | auth.go:34-62 | any sequence of frames within the limit decodes to itself and no later byte is consumed |
| `Framing.CutFrameRefused` | auth.go:48-62 | a frame cut short is never taken for a message |
| `Framing.HoldingDone` | auth.go:48-62 | a reader that stops part way and goes on ends with the body and the rest untouched; over the limit it never has the whole body |
| `Auth.NeedsTotp` | auth.go:107-113 | the loop finds "totp" if and only if it is among the methods |
| `Auth.PerformServerAuth` | auth.go:65-90 | over any connection the server writes what its decision function says, or part of it once a write has failed, and returns nil if and only if no write failed and it accepts |
| `Auth.ServerAcceptsIff` | auth.go:65-90 | whatever a client sends, a server with a secret accepts exactly when that starts with an auth message whose code validates |
| `Auth.ServerOpens` | auth.go:66-77 | it opens with auth_ok if it has no secret, and otherwise asks for totp and says no more to a peer it cannot understand |
| `Auth.ServerTells` | auth.go:79-90 | to a message it understands it answers ok, or error with the reason |
| `Auth.PerformClientAuth` | auth.go:93-147 | likewise the client |
| `Auth.ClientAcceptsIff` | auth.go:93-147 | whatever a server sends, a client accepts exactly when that starts with auth_ok, or with a request for totp it has a code for, followed by the status ok |
| `Auth.ClientTells` | auth.go:93-137 | it sends its code to a server that asks for totp, and nothing to any other |
| `Auth.CodeIs` | auth.go:119-134 | the code is the given one without the blanks around it, else the line typed, if there is a terminal and a line |
| `Auth.StepKeeps` | auth.go:65-147 | every step of the two sides, with any number of bytes read at a time, stays within the phases of the protocol |
| `Auth.BothAgree` | auth.go:65-147 | when both are done, both accept if no secret is set or the code sent validates in a message within the limit, otherwise both fail, and neither has read a byte of what follows |
| `Auth.NeverWronglyAccepted` | auth.go:65-147 | at no point has the server accepted what it should not, or the client before the server |
| `Auth.NeverStuck` | auth.go:65-147 | until both are done some step is possible |
| `Auth.RunsAreBounded` | auth.go:65-147 | and the number of steps is bounded |

## Left out

- ICE negotiation and the choice between direct, relay and data channel (webrtc.go:140-322).
- Certificates, device ids, TLS and the relay protocol itself.
- The command line, the SOCKS and port-forwarding modes, logging and the Android user interface beyond the verification loop.
- `parseLuksConf`, `blockDevices`, the resolver set-up and `fetchPassphrase`: short parsers and child processes around the agent.
- Key derivation (HKDF), SHA-1, SHA-256 and Ed25519: functions with stated lengths; nothing about their strength is claimed.
- TokenStore.BindThenRead: token strings hold no quote, backslash or newline, since text is modelled as lexemes; a seed with a quote, which the bind script would not escape, is outside the model.
- LuksDump.DumpLists: lines that cryptsetup adds below an entry are indented and do not themselves look like an entry of the wanted type.
- Readiness.ConfirmsIff: a lookup takes at most 10 s, the HTTP client's limit, and the sleep between polls is exactly 5 s.
- Readiness.ToleratedIff: for more than five refusals in a row, phone clocks behind by 10 s or more but by less than Span(k) - 130 s are not settled.
- Announce.AgeBound: the goroutine is scheduled without delay; only the HTTP request takes time.
- Auth.BothAgree: `encoding/json` is a codec that round-trips and refuses truncated objects, a closed connection still delivers what was sent before, and the connection does not break of itself; failing writes are in the two methods.
- LuksAgent.Agent.Run: the two sleeps of the loop and the text of its console messages.
