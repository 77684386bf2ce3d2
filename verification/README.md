# Selfhost, modelled and proved in Dafny

This project models the parts of the repository whose behaviour is about whole
runs rather than single calls, and proves what those parts are for. Each module
stands beside the source it models; a class stands where the source updates an
object in place, a method with a loop where the source loops, functions and lemmas
where it computes.

- **SecureChannel, Tunnel, Handshake, HandshakeRuns, Session** — the SecureVPN: the
  counter channel with its replay and jump checks, the length-prefixed framing and the
  two forwarding loops, the three-message authenticated key exchange over a hostile
  network, and a whole session from the first message to the last byte. Cryptography is
  symbolic: a box opens only under the key and nonce it was sealed with, a signature
  verifies only for its signer and text, a shared secret is an unordered pair of
  ephemerals (section 6.1 of RFC 7748, section 5.1 of RFC 8032, section 2 of RFC 5869,
  section 2.8 of RFC 8439). The network may drop, repeat,
  reorder and make up anything except a box or a signature it has not seen. Only the
  server's side of the agreement needs the two identities to differ.
- **DeskWire, WireFormat, Tiles, Pictures, DeskView, Damage, ScreenReplica,
  ReplicaRuns, DamageRuns** — the remote desktop's picture: the wire format, the tile grid
  and its payloads, the viewer that paints off screen, the agent that sends differences where
  its damage hint tells it to look, and the two together over every run of captures and
  frames through a link that may refuse any message of any frame. The
  messages travel as the bytes the encoder writes and are read by the console's
  decoder.
- **HeldInput, Paste** — the input half: what the console believes is down on
  another machine, over every run of keys, buttons, focus changes and sockets; and
  the cutting of a paste.
- **UploadQueue, UploadRuns** — the transfer queue with its budget of three, in which
  aborting a request re-enters the scheduler before the abort returns, and what the
  ends of sessions leave on the network.
- **CredentialCache, DavAuth, DevicePasswords** — the WebDAV credential check as a
  machine of many requests interleaving at every place they wait, with the cache's
  table and the password file it rests on.
- **AuditTail, Poller, Base64Url** — the bounded audit tail against the full scan,
  the single-flight poller beside the push stream, and the console's base64url
  (section 5 of RFC 4648).
- **Bytes** — byte strings and fixed-width numbers, shared by the others.

Beside the theorems about runs stand the members named `…Exactly` and `…Format`: they
say in figures and in bytes what each single decision is, without the definitions it is
made of, so that the runs are runs of this code and of no other.

Where the code does not do what it is meant to do, the model keeps the code:

- A keyframe cut short by the link is not repaired where the screen is blank, all
  four bytes zero, because the agent's blank model already agrees with it
  (`ReplicaExactly`, `StaleRun`). Some capture paths leave the alpha byte zero, so a
  black region is such a cell. A frame end the link refused is not sent again: the
  picture stays as it was until some later frame is begun and ended (`EndLost`), and
  `CanvasExactly` decides every complete frame of every run.
- The damage of a frame the agent cannot take is dropped with the frame, so a report
  against the frame before is no longer enough (`TornRun`, `RepeatedIsHonest`,
  `OwesExactly`).
- The brake on repeated failures cannot fire with two verification slots
  (`ThrottleNeverFires`); it could with ten (`ThrottleCanFire`).
- The comment on the credential fingerprint says that no part can contain its
  separator; a user name can (`SharedFingerprint`, `FingerprintExactly`). So it is not
  true that whoever is let in as the owner presented the console's password: a cached
  decision answers for another credential of the same joined text
  (`OwnerByAnotherPassword`), and `OwnerExactly` says for every credential whether it
  can be let in; `PersonExactly` says the same of people.
- Retried rows that no URL can carry use up the upload budget (`PumpFillsExactly`,
  `StarvedRun`), and abandoning the queue can leave a request on the network
  (`AbandonExactly`, `OrphanRun`), so that the next session puts more than three there
  (`OverBudgetRun`, `NeverOrphanedExactly`, `OverBudgetExactly`).
- Both ends of the handshake sign the same transcript layout, so the server's side of
  the agreement needs two identities (`AgreementExactly`, `SharedIdentity`); the
  client's side holds with one (`ClientAgreement`).
- The handshake's read loop looks at one frame a read, so an answer behind empty frames
  can be there and never be looked at (`AnswerMissed`); `FindsBehind` says exactly when
  it is found. What a read holds behind the answer is dropped (`TunnelBehindAnswer`).
- A console that is pushed to can go back to an older state, in two ways
  (`RisesExactly`, `GoesBack`); a page that only polls cannot (`UnpushedRises`).
- A limit of zero records loses count of one line (`AccountedExactly`); the only
  caller clamps the limit to at least one.

What the console believes is held down on another machine is what the machine has been
told, however many opening statements a stream carries (`HeldInputSafety`).

## Model

| member | source | states |
|---|---|---|
| SecureChannel.SecurityKeys.constructor | scripts/securevpn/app/crypto_core.py:28-47 | a session starts with transmit counter 0 and nothing yet received |
| SecureChannel.SecurityKeys.Encrypt | scripts/securevpn/app/crypto_core.py:49-73 | the packet is the counter and the box sealed under it; the counter goes up by one, and sealing is refused once it has reached 2^64 - 1000 |
| SecureChannel.SecurityKeys.Decrypt | scripts/securevpn/app/crypto_core.py:75-115 | accepts only a counter above the last accepted one and at most 1000 ahead of it, and only then moves the receive counter; a refused packet changes nothing |
| SecureChannel.PacketLayout | scripts/securevpn/app/crypto_core.py:49-73 | the counter is the first eight bytes, little end first, and the box the rest; nothing is sealed from 2^64 - 1000 on |
| SecureChannel.AcceptsExactly | scripts/securevpn/app/crypto_core.py:75-115 | a packet is accepted if and only if it has 24 bytes, its counter is above the last by at most 1000, and it opens; and each refusal, in order |
| SecureChannel.NetworkCan | scripts/securevpn/app/crypto_core.py:75-115 | how much the network can do: deliver whatever does not open, and whatever was sealed |
| Bytes.LittleEndian | scripts/securevpn/app/crypto_core.py:68-95 | what four and eight bytes are worth, little end first |
| SecureChannel.OpenSealed | scripts/securevpn/app/crypto_core.py:49-115 | what one end seals the other opens to the same plaintext, or refuses as a replay or a jump, exactly by where its counter stands |
| SecureChannel.SoundStep | scripts/securevpn/app/crypto_core.py:49-115 | every sending and every delivery, of any bytes, keeps both logs in climbing order and the delivered one inside the sealed one |
| SecureChannel.ChannelSafety | scripts/securevpn/app/crypto_core.py:59-115 | under any drop, repetition, reordering or injection the delivered plaintexts are an in-order subsequence of those sent, each at most once |
| SecureChannel.NoncesConsecutive | scripts/securevpn/app/crypto_core.py:59-73 | the nonces sealed in any run are consecutive, so none is used twice under a key |
| SecureChannel.DeliveryFrom | scripts/securevpn/app/crypto_core.py:95-113 | which packet is accepted, from any number of losses already suffered |
| SecureChannel.JumpWindowExact | scripts/securevpn/app/crypto_core.py:95-113 | the i-th packet sent is accepted if and only if it arrives and no 1000 consecutive packets before it were lost; 999 heal, 1000 end the session for good |
| Tunnel.ParseFramed | scripts/securevpn/app/protocol.py:395-432 | parsing a framed packet returns it and leaves whatever follows |
| Tunnel.ParsePartial | scripts/securevpn/app/protocol.py:408-432 | a frame cut short anywhere is neither a packet nor an error |
| Tunnel.ParseIsFraming | scripts/securevpn/app/protocol.py:408-432 | whatever is parsed is the framing of what was returned, within the size limit |
| Tunnel.FrameLayout | scripts/securevpn/app/protocol.py:395-406 | four bytes of length, little end first, then the packet |
| Tunnel.ParsesExactly | scripts/securevpn/app/protocol.py:408-432 | exactly which bytes are a packet, are too few, or announce more than 65535 |
| Tunnel.DataLayout | scripts/securevpn/app/protocol.py:334-382 | a data packet is a box over the byte 16 and at most 65435 bytes; what opens to less or to another kind is refused |
| Tunnel.CreateDataPacket | scripts/securevpn/app/protocol.py:334-352 | refuses data over the limit, otherwise seals a data byte and the data and advances the counter |
| Tunnel.ParseDataPacket | scripts/securevpn/app/protocol.py:354-382 | opens the box, refuses an empty or foreign kind, returns the data |
| Tunnel.DataRoundTrip | scripts/securevpn/app/protocol.py:334-382 | every packet that can be made fits the frame limit the other end enforces and opens there to exactly its data |
| Tunnel.LocalToVpn | scripts/securevpn/app/client.py:197-219 | the loop writes the framed packets of the reads in order until an empty read or a failure, and counts the bytes it forwarded |
| Tunnel.Receiver.OnData | scripts/securevpn/app/client.py:221-250 | one read: every complete packet now in the buffer is opened and written in turn, the rest is kept, an error closes |
| Tunnel.VpnToLocal | scripts/securevpn/app/client.py:221-250 | the outer loop over any sequence of reads writes what draining them in turn gives |
| Tunnel.DrainPrefix | scripts/securevpn/app/client.py:228-244 | a buffer holding any prefix of what is still to come yields whole reads in order and stays in step with the sender |
| Tunnel.TunnelTransparent | scripts/securevpn/app/client.py:197-250 | for every split of the input into reads and every re-chunking of the stream the far end never fails, what it wrote is a prefix of the input, and once all has arrived it is everything forwarded |
| Tunnel.AllForwarded | scripts/securevpn/app/client.py:199-212 | reads of at most 8192 bytes are all forwarded while the counter lasts |
| Handshake.EcdhAgrees | scripts/securevpn/app/crypto_core.py:256-274 | both ends reach one secret, and no other pair of ephemerals reaches it |
| Handshake.SessionKeysCross | scripts/securevpn/app/crypto_core.py:276-321 | the key one end sends with is the key the other receives with, both ways, and the two differ: the client's by one label, the server's by the other |
| Handshake.ClientHelloExactly | scripts/securevpn/app/protocol.py:202-245 | a client hello is taken if and only if it is of type 1 and version 1, its time is within 300 seconds of the server's clock either way, and it carries the pinned client's identity and a usable share |
| Handshake.ClientClock | scripts/securevpn/app/protocol.py:230-232 | right in every other respect, a client hello is taken if and only if -300 <= now - time <= 300, and is refused as stale otherwise |
| Handshake.ServerHelloExactly | scripts/securevpn/app/protocol.py:106-165 | a server hello is taken if and only if it is of type 2 and version 1, within 300 seconds either way, from the pinned server, with a usable share and that server's signature over both shares and both times |
| Handshake.ServerClock | scripts/securevpn/app/protocol.py:131-136 | right in every other respect, a server hello is taken if and only if -300 <= now - time <= 300, and is refused as stale otherwise |
| Handshake.ClientAuthExactly | scripts/securevpn/app/protocol.py:279-332 | the proof is accepted if and only if it is of type 3, names the pinned client and carries that client's signature over this transcript |
| Handshake.FirstRefusal | scripts/securevpn/app/protocol.py:106-165 | where several things are wrong with a server hello: type, version, clock, identity, in this order |
| Handshake.FirstClientRefusal | scripts/securevpn/app/protocol.py:202-245 | the same of a client hello |
| Handshake.BoxesExactly | scripts/securevpn/app/crypto_core.py:49-115 | what a box holds, and exactly which boxes open |
| Handshake.DataExactly | scripts/securevpn/app/protocol.py:334-382 | data travels as type 16 under the next counter |
| Handshake.CreateClientHello | scripts/securevpn/app/protocol.py:76-104 | the hello carries the ephemeral, the time and the identity, and the state remembers the first two |
| Handshake.ProcessServerHello | scripts/securevpn/app/protocol.py:106-165 | each refusal in the order of the source; on success the peer, its time and the derived keys are recorded |
| Handshake.CreateClientAuth | scripts/securevpn/app/protocol.py:167-200 | the proof signs the transcript of both ephemerals and both times and is sealed as the first box |
| Handshake.ProcessClientHello | scripts/securevpn/app/protocol.py:202-277 | each refusal in the order of the source; on success the answer, the state and the keys describe one session |
| Handshake.ProcessClientAuth | scripts/securevpn/app/protocol.py:279-332 | accepts exactly the pinned client's signature over this session's own transcript |
| Handshake.FinishHandshake | scripts/securevpn/app/client.py:134-142 | once a packet is in hand: the client is done exactly when the answer passes, and then its first box is the proof |
| Session.FindsPacket | scripts/securevpn/app/client.py:121-133 | however a stream that begins with a framed packet, not an empty one, is cut into reads, the loop comes away with exactly that packet; what it drops with its buffer and what it leaves unread are the rest of the stream, and nothing is dropped exactly when a read ended where the frame did |
| Session.WaitsForPacket | scripts/securevpn/app/client.py:121-133 | a frame that has not all arrived keeps the loop waiting until the reads end |
| Session.EmptyFrameCostsARead | scripts/securevpn/app/client.py:127-133 | an empty frame at the front of a read is passed over, and what came behind it in the same read is not looked at before the next |
| Session.FindsBehind | scripts/securevpn/app/client.py:121-133 | behind any number of empty frames, and however the stream is cut into reads, the answer is found if and only if each empty frame has a read of its own before the last: after every read, as many are left before the last as there are empty frames still to arrive; otherwise the loop waits until it gives up |
| Session.BehindOneEmptyFrame | scripts/securevpn/app/client.py:121-133 | behind one empty frame: if and only if the empty frame was there before the last read |
| Session.AnswerMissed | scripts/securevpn/app/client.py:121-133 | an answer that is missed: one read that holds an empty frame and the answer |
| Session.ReadPacket | scripts/securevpn/app/client.py:121-133 | the loop answers what the read-by-read account says, or that the connection closed |
| Session.PerformHandshake | scripts/securevpn/app/client.py:101-148 | the whole client handshake over any sequence of reads: the hello goes out, the answer is read, checked and proved, or the failure is reported |
| Session.InStepIsSynchronised | scripts/securevpn/app/client.py:101-148 | the counters two partners are left with are where the tunnel starts, in both directions |
| Session.HandshakeOpensTunnel | scripts/securevpn/app/client.py:101-250 | over every run against a hostile network: partners of which the server has accepted, and neither has sent data, carry each other's streams exactly, both ways, for every correct cipher, every split into reads and every re-chunking |
| Session.HonestSession | scripts/securevpn/app/client.py:101-148 | with clocks at most 300 seconds apart either way, the answer heard within 300 seconds of its stamp, and the three messages delivered, there are such partners |
| Session.TunnelBehindAnswer | scripts/securevpn/app/client.py:117-250 | of what was sent behind the answer the tunnel is handed everything, and delivers it, if and only if a read ended where the answer did |
| Session.NothingBehindAnswer | scripts/securevpn/app/client.py:121-142 | while the server still waits for the proof nothing is behind the answer, and nothing is dropped |
| HandshakeRuns.StepInv | scripts/securevpn/app/protocol.py:76-330 | every step of any session or of the network keeps the agreement invariant |
| HandshakeRuns.NetworkCan | scripts/securevpn/app/protocol.py:76-330 | how much the network can do: send anything in the clear, any stranger's signature, anything an end signed or sealed before, and any box under a key not private to the two ends |
| HandshakeRuns.ServerAgreement | scripts/securevpn/app/protocol.py:76-330 | with two identities, over every run against a hostile network an accepted server session has exactly one client session with the same ephemerals and times and crossed keys, and shares it with no other server session |
| HandshakeRuns.ClientAgreement | scripts/securevpn/app/protocol.py:106-165 | an established client session has exactly one server session for itself, with one identity or with two |
| HandshakeRuns.AgreementExactly | scripts/securevpn/app/protocol.py:145-150 | the server's agreement holds over all runs if and only if the two pinned identities differ |
| HandshakeRuns.SharedIdentity | scripts/securevpn/app/protocol.py:317-322 | the run that shows it: with one identity in both roles a server session is accepted with no client at all |
| HandshakeRuns.NonceSealsOnce | scripts/securevpn/app/crypto_core.py:59-73 | over every run, all sessions and all identities a key and a nonce determine what was sealed under them |
| HandshakeRuns.PartnersHearEachOther | scripts/securevpn/app/protocol.py:334-382 | what partners received from each other is an in-order subsequence of what the other sent, for all identities |
| HandshakeRuns.InStepExactly | scripts/securevpn/app/crypto_core.py:59-115 | partners, at any moment of any run, expect each other's next counter exactly when the last packet of each has been received by the other |
| HandshakeRuns.HonestRun | scripts/securevpn/app/client.py:101-148 | with clocks at most 300 seconds apart either way, the answer heard at any time within 300 seconds of its stamp, and the three messages delivered, both ends finish as partners, each expecting the other's next counter |
| UploadQueue.PumpAt | sites/console/app.js:5913-5923 | a pump begins exactly the queued rows that fit what is left of the budget, oldest first |
| UploadQueue.PumpValid | sites/console/app.js:5913-5923 | a pump keeps at most three sending, each with its request and no request without one |
| UploadQueue.PumpSaturates | sites/console/app.js:5913-5923 | with every queued row addressable, after a pump three are sending or none waits, and nothing started past an older row left waiting |
| UploadQueue.PumpFillsExactly | sites/console/app.js:5913-5982 | a pump leaves the budget unfilled with work waiting exactly when rows no URL can carry use it up |
| UploadQueue.StarvedRun | sites/console/app.js:6241-6252 | a run after which a file waits for ever while nothing is sending |
| UploadQueue.CancelAllExact | sites/console/app.js:6229-6234 | although each abort re-enters the pump, cancelling all comes to stopping every live row at once |
| UploadQueue.AbandonSafe | sites/console/app.js:6257-6263 | abandoning leaves no request in flight when no addressable queued row precedes a sending one |
| UploadQueue.AbandonExactly | sites/console/app.js:6257-6263 | for every queue, it leaves none if and only if each row that waits and has an address is kept waiting by rows without one, or has no request behind it, or has one in front and fits the budget with what is behind it |
| UploadQueue.OrphanRun | sites/console/app.js:6241-6263 | a run after which abandoning leaves a request on the network |
| UploadQueue.ApplyValid | sites/console/app.js:5868-6055 | every event within a session keeps the scheduler invariant |
| UploadQueue.RunValid | sites/console/app.js:5868-6055 | so every state of a session has at most three rows sending, each with its request on the network |
| UploadQueue.AppliesExactly | sites/console/app.js:5868-6252 | what each event makes of its row: 200 to 299 done, 409 collided, any other answer and any failure refused, a cancelled row cancelled, and only a refused, cancelled or collided one tried again |
| UploadQueue.LandsExactly | sites/console/app.js:6015-6039 | an answer leaves its row done, collided or refused by its status with no request, and every other row as it was or begun |
| UploadQueue.RetriesExactly | sites/console/app.js:6241-6252 | which rows go back in the queue |
| UploadQueue.ClearsExactly | sites/console/app.js:6269-6277 | clearing keeps the rows that wait or are sending, in their order |
| UploadRuns.EndLeaves | sites/console/app.js:6257-6267 | the end of a session, by a sign-out or a 401 to a row or to a forgotten request, adds at most three forgotten requests, and none exactly when what it found was clean |
| UploadRuns.HappensExactly | sites/console/app.js:6015-6267 | what every happening does to the rows and to the requests without one |
| UploadRuns.HappenValid | sites/console/app.js:6015-6053 | every happening, the end of a forgotten request included, keeps the scheduler invariant |
| UploadRuns.EveryState | sites/console/app.js:5868-6267 | over every run of any number of sessions the requests on the network are the sending rows and the forgotten ones, at most three beyond those |
| UploadRuns.NeverOrphanedExactly | sites/console/app.js:5913-6267 | no state of a run has a forgotten request if and only if every session in it was ended clean; and then three requests is the most at any moment |
| UploadRuns.OverBudgetRun | sites/console/app.js:6257-6267 | a run after which more than three requests are on the network |
| UploadRuns.OverBudgetExactly | sites/console/app.js:5913-5923 | some use of a session puts more than three requests on the network if and only if a forgotten request is still there |
| UploadQueue.Uploads.constructor | sites/console/app.js:5868-5892 | the queue starts empty |
| UploadQueue.Uploads.EnqueueUpload | sites/console/app.js:5868-5903 | the row is appended, refused at once when no URL names it or a ceiling stops it |
| UploadQueue.Uploads.BeginUpload | sites/console/app.js:5980-5994 | a row that can be addressed goes on the network; any other is left as it was |
| UploadQueue.Uploads.PumpUploads | sites/console/app.js:5913-5923 | the loop does what the row-by-row account says |
| UploadQueue.Uploads.OnLoad | sites/console/app.js:6015-6039 | done for 200 to 299, collided for 409, refused for any other answer, then the pump runs; a 401 ends the session with this row's own request over |
| UploadQueue.Uploads.OnError | sites/console/app.js:6040-6046 | refused, then the pump runs |
| UploadQueue.Uploads.Abort | sites/console/app.js:6047-6053 | an abort cancels the row and re-enters the pump before it returns |
| UploadQueue.Uploads.CancelUpload | sites/console/app.js:6213-6224 | a queued row is cancelled in place, a sending one through its request |
| UploadQueue.Uploads.CancelAllUploads | sites/console/app.js:6229-6234 | ends with no live transfer |
| UploadQueue.Uploads.RetryUpload | sites/console/app.js:6241-6252 | a finished row goes back in the queue alone and the pump runs |
| UploadQueue.Uploads.AbandonUploads | sites/console/app.js:6257-6267 | empties the queue; what stays on the network, and exactly when nothing does |
| UploadQueue.Uploads.OnOrphan | sites/console/app.js:6015-6053 | the handler of a request whose row is gone still pumps, and still ends the session on a 401 |
| UploadQueue.Uploads.ClearFinishedUploads | sites/console/app.js:6269-6277 | keeps exactly the live rows in order |
| Tiles.TilePartition | sites/console/app.js:1200-1212 | each pixel of the display lies in exactly one tile rectangle |
| Tiles.TileAreas | sites/console/app.js:1200-1212 | the areas of the tiles sum to width times height |
| Tiles.RleEncode | crates/services/desk/src/tiles.rs:709-731 | the loop writes the run-length records of the tile |
| Tiles.ExpandTile | sites/console/app.js:1219-1251 | null, or exactly four bytes for each pixel: what the payload means |
| Tiles.ExpandRuns | sites/console/app.js:1234-1250 | the run-length loop yields what its records mean, or null |
| Tiles.TileRoundTrip | crates/services/desk/src/tiles.rs:686-731 | whichever encoding the agent chooses, the console expands it to the tile |
| Tiles.EncodeSmallest | crates/services/desk/src/tiles.rs:686-707 | the encoding chosen is no longer than the others, and four bytes for a uniform tile |
| Tiles.RleRoundTrip | crates/services/desk/src/tiles.rs:709-731 | run-length payloads expand to the tile they were made from |
| Tiles.SolidRoundTrip | crates/services/desk/src/tiles.rs:686-707 | so do solid ones |
| Tiles.RunRecord | crates/services/desk/src/tiles.rs:709-731 | one run is one record: a count of at most 255, then blue, green, red and alpha |
| Tiles.ExpandsExactly | sites/console/app.js:1219-1251 | what encodings 0 and 3 expand to, and that 2 and everything above 3 expand to nothing |
| Tiles.ChoosesExactly | crates/services/desk/src/tiles.rs:686-707 | which encoding a tile gets: 3 if it is all one pixel, 1 if the runs are shorter than the pixels, 0 otherwise; none for no pixels or more than 16384 |
| Tiles.ScreenPixels | sites/console/app.js:1260-1269 | byte by byte: of every four the third, the second and the first, then 255; a ragged end zero |
| Tiles.ScreenedFlat | sites/console/app.js:1260-1269 | what the canvas is given of a flat tile, pixel by pixel |
| Pictures.CopyTile | crates/services/desk/src/tiles.rs:540-552 | a rectangle copied out row by row, refused outside the surface |
| Pictures.PutTile | crates/services/desk/src/tiles.rs:558-578 | a rectangle written back row by row, refused outside the surface or with the wrong number of pixels |
| Pictures.TileSame | crates/services/desk/src/tiles.rs:540-552 | two copies are equal exactly when the surfaces agree on the rectangle |
| Pictures.TilePut | crates/services/desk/src/tiles.rs:540-578 | a copy put down reads back as itself, and putting a surface's own copy back changes nothing |
| DeskWire.DeskMessage | sites/console/app.js:1306-1396 | total on every byte string; answers what the string means, so only when every byte is accounted for |
| DeskWire.Cursor.ReadU64 | sites/console/app.js:1315-1323 | two words folded into one of the console's numbers, rounded where those are |
| DeskWire.RoundedExactly | sites/console/app.js:1315-1323 | which 64-bit values survive the console's arithmetic; all below 2^53 do |
| DeskWire.WireRoundTrip | crates/services/desk/src/wire.rs:736-828 | the decoder inverts the encoder for all eight kinds, exactly when 64-bit fields are the console's numbers |
| DeskWire.WireReEncodesExactly | sites/console/app.js:1306-1396 | an accepted string re-encodes to itself if and only if its flag bytes are 0 or 1 and its 64-bit field is one of the console's numbers |
| Bytes.BigEndian | crates/services/desk/src/wire.rs:736-828 | what two, four and eight bytes are worth, big end first |
| WireFormat.HelloFormat | sites/console/app.js:1306-1345 | kind 1: where its fields stand, and as many displays of twenty bytes as it says |
| WireFormat.DisplayFormat | sites/console/app.js:1325-1345 | where the fields of one display stand |
| WireFormat.StatusFormat | sites/console/app.js:1345-1396 | kind 2: a message if and only if the notice is 1 to 9 and the detail is as long as it says |
| WireFormat.FixedFormats | sites/console/app.js:1345-1396 | kinds 3, 5 and 6: where their fields stand |
| WireFormat.TileFormat | sites/console/app.js:1345-1396 | kinds 4 and 8: where their fields stand; a message if and only if the payload is as long as it says, and the refusal is 1 to 6 |
| WireFormat.ShapeFormat | sites/console/app.js:1345-1396 | kind 7: a message if and only if the hot spot lies in the picture and the pixels are four bytes each |
| WireFormat.NoMessage | sites/console/app.js:1306-1396 | everything else is no message |
| WireFormat.UlpIs | sites/console/app.js:1315-1323 | the spacing of the console's numbers: the power of two that leaves 53 bits |
| WireFormat.RoundedNearest | sites/console/app.js:1315-1323 | a 64-bit field becomes the nearest of the console's numbers, the even one of two as near |
| DeskView.DeskViewer.constructor | sites/console/app.js:7109-7109 | a 16 by 9 placeholder and a buffer of 300 by 150, both clear, and no socket |
| DeskView.DeskViewer.AskFullFrame | sites/console/app.js:7823-7829 | on an open socket the request goes out and the sequence is forgotten; on any other nothing happens |
| DeskView.TileImage | sites/console/app.js:1219-1269 | a tile's payload as image data, opaque and channels swapped, or null |
| DeskView.DeskViewer.BeginFrame | sites/console/app.js:7844-7884 | adopts monitor, sequence and size; a new size clears both canvases, and on an open socket asks for a whole frame unless this is one |
| DeskView.BeginsExactly | sites/console/app.js:7844-7884 | the start of a frame, field by field: the frames missed are counted, a new size clears both canvases, and a difference frame of a new size asks for a whole one and forgets the sequence |
| DeskView.HelloExactly | sites/console/app.js:7625-7650 | a greeting gives the edge of the tiles, and the first display is the one watched |
| DeskView.TileIgnored | sites/console/app.js:7886-7903 | which tiles paint nothing |
| DeskView.TilePaints | sites/console/app.js:7886-7903 | any other tile paints its rectangle of the buffer row by row with the red, green and blue of its pixels, opaque, and leaves the rest |
| DeskView.DeskViewer.PaintTile | sites/console/app.js:7886-7903 | paints the tile's rectangle into the buffer alone, or nothing |
| DeskView.DeskViewer.EndFrame | sites/console/app.js:7905-7914 | the buffer is composited onto the canvas |
| DeskView.DeskViewer.OnDeskFrame | sites/console/app.js:7619-7665 | bytes that are no message change nothing; a message does what its kind says |
| DeskView.ApplyValid | sites/console/app.js:7844-7914 | every message keeps the two canvases in step |
| DeskView.EndShows | sites/console/app.js:7905-7914 | at a frame's end the operator sees exactly what was painted |
| DeskView.NeverPartlyPainted | sites/console/app.js:7844-7914 | between frame ends, whatever arrives, the canvas is the last ended frame or empty after a change of size |
| ScreenReplica.ChangedTile | crates/services/screen/src/agent.rs:925-935 | one cell: an update if there is nothing to compare with, or it was looked at and differs |
| ScreenReplica.ChangedTiles | crates/services/screen/src/agent.rs:908-938 | one update for every cell that differs, in row-major order |
| ScreenReplica.RowMajor | crates/services/screen/src/agent.rs:908-938 | tiles go out row by row from the top, and from the left in each row |
| ScreenReplica.Accepts | crates/services/desk/src/tiles.rs:238-250 | tile edges are 16, 32, 64 and 128, and a picture has 1 to 32768 pixels a side |
| ScreenReplica.SendTiles | crates/services/screen/src/agent.rs:767-797 | the tiles in order until the link takes no more; the model advances only for those |
| ScreenReplica.Streamer.constructor | crates/services/screen/src/agent.rs:540-560 | no model of the client, and a keyframe due |
| ScreenReplica.Streamer.RequestFullFrame | crates/services/screen/src/agent.rs:601-607 | forgets what the client holds and owes a keyframe |
| ScreenReplica.Streamer.Lose | crates/services/screen/src/agent.rs:659-667 | a screen that is no longer in front: nothing is known of the client, and the hint stays |
| ScreenReplica.Streamer.Shoot | crates/services/screen/src/agent.rs:629-634 | a capture: its damage is merged into the hint, then the frame is sent by it |
| ScreenReplica.Streamer.Decide | crates/services/screen/src/agent.rs:704-719 | whether the model describes this picture; if not it is forgotten and a keyframe is due |
| ScreenReplica.Streamer.SendFrame | crates/services/screen/src/agent.rs:698-824 | exactly what goes on the wire, what the model becomes and what the hint becomes (cleared, kept or widened), whatever the link refuses |
| ScreenReplica.Streamer.SendBody | crates/services/screen/src/agent.rs:738-815 | the header, the tiles the link takes, the end, and the model advanced for just those |
| ScreenReplica.WireExactly | crates/services/screen/src/agent.rs:725-815 | what a link takes of a frame: nothing if no tile differs or the header is refused, otherwise the header, the first tiles in order as far as it takes them, and the end |
| ScreenReplica.HeaderExactly | crates/services/screen/src/agent.rs:704-762 | the header and the end as a viewer reads them: the next number, the size, and a keyframe unless the agent holds a model of this display and size and no whole frame was asked for |
| ScreenReplica.TileExactly | crates/services/screen/src/agent.rs:767-797 | a tile message as a viewer reads it: its cell and its encoding |
| ScreenReplica.NextExactly | crates/services/screen/src/agent.rs:737-737 | frames are numbered one after another, as far as 64 bits go |
| Damage.TouchedExactly | crates/services/desk/src/tiles.rs:453-486 | a rectangle, clipped, touches exactly the tiles that hold one of its pixels on the display |
| Damage.ReportedIsTouched | crates/services/desk/src/tiles.rs:438-450 | a pixel that is reported changed or moved to lies in a tile that will be compared |
| Damage.TouchedByExactly | crates/services/desk/src/tiles.rs:438-486 | a report touches exactly the tiles that hold one of its pixels on the display |
| Damage.ReportExactly | crates/services/desk/src/tiles.rs:438-450 | a report names where things moved to and what is dirty |
| Damage.MergedSuspects | crates/services/screen/src/agent.rs:380-398 | merging forgets nothing: what was suspected stays so, and so does what the report names, or everything does |
| Damage.MergedExactly | crates/services/screen/src/agent.rs:380-398 | everything is suspect if and only if it was, or the report is empty, or there are more than 256 of a kind; otherwise exactly what was suspect and what is named |
| Damage.DamageHint.constructor | crates/services/screen/src/agent.rs:366-368 | nothing is suspected |
| Damage.DamageHint.Merge | crates/services/screen/src/agent.rs:380-398 | an empty report or too many rectangles widen the hint to the whole frame |
| Damage.DamageHint.Clear | crates/services/screen/src/agent.rs:401-404 | nothing is suspected any more |
| Damage.DamageHint.Widen | crates/services/screen/src/agent.rs:817-822 | everything is |
| DamageRuns.HonestCovers | crates/services/screen/src/agent.rs:908-938 | if a report names what changed since the last capture, comparing only the tiles the hint names misses none that differs from the client's |
| DamageRuns.RigExactly | crates/services/screen/src/agent.rs:601-667 | what a capture, a torn frame, a request for a whole frame and the loss of the screen leave of the model and of the hint |
| DamageRuns.StepOwes | crates/services/screen/src/agent.rs:618-824 | every capture, torn frame, loss and request keeps that, whatever the link refused of the frame |
| DamageRuns.NoneTornHonest | crates/services/screen/src/agent.rs:635-647 | a report against the frame before, which is what the capture layer promises, is enough while no frame is torn |
| DamageRuns.RepeatedIsHonest | crates/services/screen/src/agent.rs:643-646 | after a torn frame, whose report is dropped with it, the next report must also name what that one named, or name nothing |
| DamageRuns.OwesExactly | crates/services/screen/src/agent.rs:698-824 | a frame taken whole leaves nothing unsuspected behind if and only if the hint named every tile that differed from the client's |
| DamageRuns.TornRun | crates/services/screen/src/agent.rs:643-646 | a run with reports against the frame before in which a torn frame's damage is lost for good |
| DamageRuns.ReplicaOfCaptures | crates/services/screen/src/agent.rs:618-824 | so over every run of captures with honest reports, no keyframe cut short, a frame taken whole and shown leaves the far surface on the canvas |
| ReplicaRuns.TileHeard | sites/console/app.js:7886-7903 | a tile message, through the wire, puts the far pixels of its cell into the buffer, opaque |
| ReplicaRuns.FrameStep | crates/services/screen/src/agent.rs:698-824 | one frame keeps the two ends in step, touches only the delivered cells, shows what was painted if it ended, and counts no gap |
| ReplicaRuns.RunSynced | crates/services/screen/src/agent.rs:698-824 | so does every run of frames and resets |
| ReplicaRuns.Settles | crates/services/screen/src/agent.rs:698-824 | after a frame the link took whole the model is the captured picture |
| ReplicaRuns.Replica | sites/console/app.js:7844-7914 | over every run in which no keyframe was cut short a complete, ended frame leaves the far surface on the canvas: of its size, at every pixel its red, green and blue, and alpha 255 |
| ReplicaRuns.MirrorsExactly | sites/console/app.js:1260-1269 | the canvas is the opaque form of a surface if and only if it has its size, its red, green and blue at every pixel, and alpha 255 |
| ReplicaRuns.ReplicaExactly | crates/services/screen/src/agent.rs:752-797 | without that condition, read off what was there before the frame: the canvas is the far surface if and only if each of its cells was delivered since the model was reset or was already opaque black on a screen of this size |
| ReplicaRuns.CutShort | crates/services/screen/src/agent.rs:752-762 | a blank keyframe cut short leaves the old picture, and no later frame of it sends anything |
| ReplicaRuns.StaleRun | crates/services/screen/src/agent.rs:752-797 | a session whose canvas stays wrong although every later frame is complete |
| ReplicaRuns.EndLost | crates/services/screen/src/agent.rs:801-809 | a complete frame whose end was lost is not sent again, and the far surface is on the canvas exactly if it was before |
| ReplicaRuns.UnshownExactly | sites/console/app.js:7844-7914 | after a frame that is not begun and ended, of any size, whole or cut short, the far surface is on the canvas if and only if it was there before |
| ReplicaRuns.CanvasExactly | crates/services/screen/src/agent.rs:698-824 | every complete frame of every run, decided from what was there before it: by the cells delivered and already black if the last frame begun was ended, by whether the far surface was there already if not |
| ReplicaRuns.Opening | sites/console/app.js:7625-7650 | a page that has heard the opening statement is in step with a fresh agent |
| ReplicaRuns.HandOverExactly | sites/console/app.js:7374-7404 | what a page keeps for a later stream: the pixels, and the display they belong to if the last stream was up |
| ReplicaRuns.Reopening | sites/console/app.js:7374-7404 | so is the same page with a later stream, the last picture still on its canvas |
| HeldInput.HeldInputSafety | sites/console/app.js:8018-8094 | over every run from a fresh page: while the stream is open, replaying what was sent gives exactly the held keys and buttons; no release for something not down; without focus nothing held; streams given up open left nothing down |
| HeldInput.LettingGo | sites/console/app.js:8061-8074 | every blur, hide, handover, disconnection and release leaves the far machine holding nothing on that stream |
| HeldInput.StepSafe | sites/console/app.js:8018-8234 | every event keeps it |
| HeldInput.KeyDown | sites/console/app.js:8112-8134 | on a desk that drives and has the focus a key going down, not the paste chord, is held with everything still held, and on an open stream its press goes out after the reconciling releases and it is down at the far end |
| HeldInput.KeyUp | sites/console/app.js:8112-8134 | a key coming up is neither held nor down afterwards, and its release goes out exactly if it was still held |
| HeldInput.KeyOtherwise | sites/console/app.js:8112-8134 | without the grant or the focus nothing happens, an unknown key only reconciles, and the paste chord lets everything go |
| HeldInput.ButtonDown | sites/console/app.js:8174-8185 | browser buttons 0 to 4 go out as codes 1 to 5, pressed, after the position, and are remembered and down |
| HeldInput.ButtonUp | sites/console/app.js:8186-8196 | the release goes out exactly for a button that was down, and leaves it up |
| HeldInput.OtherButtons | sites/console/app.js:8174-8196 | any other button is nothing |
| HeldInput.PointerExactly | sites/console/app.js:8142-8216 | moves and scrolls go out as they are, and only with the grant and the focus |
| HeldInput.OthersExactly | sites/console/app.js:8061-8074 | letting go is one message, whatever was granted; text needs the grant and goes out in order; a whole frame can be asked for without it |
| HeldInput.OpensExactly | sites/console/app.js:7625-7665 | a stream opens if it was opening, and a greeting on it grants what it says |
| HeldInput.ClosesExactly | sites/console/app.js:7701-7755 | closing, disconnecting and handing over, field by field |
| HeldInput.ReconcileSends | sites/console/app.js:8082-8094 | reconciling sends the releases of what it lets go, and changes nothing else |
| HeldInput.ReconcileExactly | sites/console/app.js:8082-8094 | lifts exactly the held modifiers the operating system says are up, by their usages 0xE0 to 0xE7 |
| HeldInput.PasteLetsGo | sites/console/app.js:8315-8321 | before a paste nothing stays held, the keys below 0xE0 released before the modifiers |
| HeldInput.StrandedModifiers | sites/console/app.js:1689-1698 | the held sides of every role that is not pressed, in order |
| HeldInput.DeskInput.constructor | sites/console/app.js:7140-7188 | a fresh session holds nothing, and is safe |
| HeldInput.DeskInput.Send | sites/console/app.js:8018-8023 | sends only with the grant and an open stream, and says whether it did |
| HeldInput.DeskInput.Press | sites/console/app.js:8026-8029 | remembered, then sent |
| HeldInput.DeskInput.Lift | sites/console/app.js:8040-8043 | sent only if it was believed down |
| HeldInput.DeskInput.Release | sites/console/app.js:8061-8074 | everything forgotten, and the far end told if there is a stream |
| HeldInput.DeskInput.Reconcile | sites/console/app.js:8082-8094 | the loop over the stranded modifiers |
| HeldInput.DeskInput.Paste | sites/console/app.js:8254-8256 | the modifiers come off first |
| HeldInput.DeskInput.KeyHandler | sites/console/app.js:8112-8134 | one key event: a press goes out and leaves the key held and down, a release goes out exactly if it was still held and leaves it neither, and every way it can be turned away |
| HeldInput.DeskInput.PointerDownHandler | sites/console/app.js:8174-8185 | position first, then the button, only while driving and focused |
| HeldInput.DeskInput.PointerUpHandler | sites/console/app.js:8186-8196 | a release only for a button believed down |
| HeldInput.DeskInput.BlurHandler | sites/console/app.js:8229-8234 | losing the focus releases everything |
| HeldInput.DeskInput.Drop | sites/console/app.js:7722-7731 | the socket is forgotten |
| HeldInput.DeskInput.CloseHandler | sites/console/app.js:7701-7719 | a closed channel holds nothing and grants nothing |
| HeldInput.DeskInput.Close | sites/console/app.js:7745-7755 | released through the stream before it is dropped |
| HeldInput.DeskInput.TakeOver | sites/console/app.js:7374-7404 | the outgoing stream is released before the next is opened |
| CredentialCache.FingerprintExactly | crates/services/storage/src/auth.rs:558-592 | two credentials share a fingerprint exactly when door and joined user and password agree; with no NUL in user names only a credential and itself |
| CredentialCache.SharedFingerprint | crates/services/storage/src/auth.rs:558-565 | two that do share one, since a user name may contain the separator |
| CredentialCache.LookUpKnows | crates/services/storage/src/auth.rs:446-461 | a look-up knows a credential exactly when a live decision about it is held |
| CredentialCache.LookUpExactly | crates/services/storage/src/auth.rs:446-461 | the entry about a credential that was decided within 60 seconds, or has failed in a window that opened within 60 seconds, is what a look-up says |
| CredentialCache.LookUpMisses | crates/services/storage/src/auth.rs:446-461 | with no such entry it says nothing |
| CredentialCache.BrakedExactly | crates/services/storage/src/auth.rs:470-479 | a credential is braked if and only if its entry has ten failures in a window that opened within 60 seconds |
| CredentialCache.RedecidesExactly | crates/services/storage/src/auth.rs:486-509 | a yes wipes the failures of the entry that stands; a no is one more, or the first of a new window once the old one is 60 seconds old |
| CredentialCache.DecidesAfresh | crates/services/storage/src/auth.rs:510-527 | with nothing that stands, an entry of its own |
| CredentialCache.RememberedIs | crates/services/storage/src/auth.rs:486-527 | remembering leaves one decision about the credential, made now, within 64, and of the others only live ones |
| CredentialCache.EvictsOldest | crates/services/storage/src/auth.rs:510-518 | a live decision is lost only from a full table, and only the least recently decided one |
| CredentialCache.Credentials.constructor | crates/services/storage/src/auth.rs:407-415 | nothing is known |
| CredentialCache.Credentials.LookUp | crates/services/storage/src/auth.rs:446-461 | expired decisions go, then the first match answers |
| CredentialCache.Credentials.Throttled | crates/services/storage/src/auth.rs:470-479 | ten failures inside the window |
| CredentialCache.Credentials.Remember | crates/services/storage/src/auth.rs:486-527 | counts, windows and evicts the least recently decided |
| CredentialCache.Credentials.OldestIndex | crates/services/storage/src/auth.rs:642-648 | the least recently decided, the first of several |
| DavAuth.StepBounded | crates/app/admin/src/dav_api.rs:371-435 | every step of every request keeps the bound on verifications |
| DavAuth.SingleFlight | crates/app/admin/src/dav_api.rs:398-435 | in every interleaving, while a decision stands, the verifications that made or outlived it are no more than the slots |
| DavAuth.StartsCold | crates/app/admin/src/dav_api.rs:412-425 | a verification starts only for a credential about which nothing is known, with a slot in hand |
| DavAuth.ThrottleNeverFires | crates/services/storage/src/auth.rs:470-479 | with fewer slots than ten failures no request is ever throttled |
| DavAuth.ThrottleCanFire | crates/services/storage/src/auth.rs:470-479 | with ten slots or more some run throttles one, so the bound is exact |
| DavAuth.StepSound | crates/app/admin/src/dav_api.rs:371-470 | every step keeps the reasons callers were let in, and that the cache and the comparisons in hand say what the stored hashes said |
| DavAuth.FinishAnswers | crates/app/admin/src/dav_api.rs:371-470 | in every run, a verification that finishes answers its request: let in if and only if the hash it was compared with matches the password; with no entry for the name when it arrived that is the console's and the caller is the owner, with one it is the person's own in the file as it stood at the comparison and the caller is that person |
| DavAuth.LostAnswers | crates/app/admin/src/dav_api.rs:424-431 | a verification whose task was lost answers wrong and teaches the cache nothing |
| DavAuth.CacheAnswers | crates/app/admin/src/dav_api.rs:401-422 | an entry that stands answers, at the first look-up and at the one with a slot in hand: let in as the door says if it says yes, wrong if it says no |
| DavAuth.CacheIsSilent | crates/app/admin/src/dav_api.rs:401-422 | with none that stands the request goes on, and nobody is answered |
| DavAuth.ThrottleExactly | crates/app/admin/src/dav_api.rs:398-400 | a request is throttled if and only if its credential has ten failures in a window that opened within 60 seconds |
| DavAuth.CountsExactly | crates/app/admin/src/dav_api.rs:412-435 | which verifications are counted in the life of a decision |
| DavAuth.PersonIsVerified | crates/app/admin/src/dav_api.rs:378-435 | a person let in held an entry when the request arrived; and at some moment of the run the file as it then stood held for that person a hash this password matches, in a decision made after that moment and less than a TTL old |
| DavAuth.PersonExactly | crates/app/admin/src/dav_api.rs:371-470 | a credential is ever let in as the person it names if and only if there is a slot, its user is a name and some stored hash matches its password |
| DavAuth.ClearedIsOut | crates/app/admin/src/device_password.rs:125-148 | no request that arrives while a person has no entry, so none after a clear and before the next set, is answered as that person |
| DavAuth.OwnerIsConsole | crates/app/admin/src/dav_api.rs:455-470 | whoever is let in as the owner rests on a live decision about a credential of the same joined text whose password matches the console's; the very same credential if it contains no NUL |
| DavAuth.SameTextOpens | crates/services/storage/src/auth.rs:446-461 | any credential whose joined text is that of one matching the console's password is let in as the owner in some run |
| DavAuth.OwnerExactly | crates/app/admin/src/dav_api.rs:398-470 | a credential is ever let in as the owner if and only if there is a slot and some credential of the same joined text matches the console's password |
| DavAuth.OwnerByAnotherPassword | crates/services/storage/src/auth.rs:258-268 | a credential let in as the owner whose own password does not match |
| DevicePasswords.ParseDocument | crates/app/admin/src/device_password.rs:273-299 | the whole document or nothing, item by item |
| DevicePasswords.ParseValid | crates/app/admin/src/device_password.rs:273-299 | whatever is accepted names at most 32 people, each once, with stored hashes |
| DevicePasswords.FileRoundTrip | crates/app/admin/src/device_password.rs:254-299 | what was written reads back, the times rounded to a double's whole numbers; exactly as written if and only if every time comes back, as all below 2^53 do |
| DevicePasswords.DocumentShape | crates/app/admin/src/device_password.rs:254-299 | the document of one person, key by key |
| DevicePasswords.KeptExactly | crates/app/admin/src/device_password.rs:254-299 | a time comes back if and only if a double holds it or it is the largest of all |
| DevicePasswords.SetMeans | crates/app/admin/src/device_password.rs:167-190 | setting one password changes that person's hash and nobody else's |
| DevicePasswords.SetTimes | crates/app/admin/src/device_password.rs:167-190 | what is on disk after a password is set: that person's entry with the time of the change, everybody else's as it was, each time as a double keeps it |
| DevicePasswords.ClearMeans | crates/app/admin/src/device_password.rs:200-209 | clearing one leaves exactly the others |
| DevicePasswords.DevicePasswords.constructor | crates/app/admin/src/device_password.rs:110-112 | a handle onto the file |
| DevicePasswords.DevicePasswords.Entries | crates/app/admin/src/device_password.rs:212-235 | what the file holds, or nothing if it is missing, unreadable or malformed |
| DevicePasswords.DevicePasswords.Holds | crates/app/admin/src/device_password.rs:125-127 | whether this person has an entry |
| DevicePasswords.DevicePasswords.Verify | crates/app/admin/src/device_password.rs:143-148 | whether the password matches this person's own entry |
| DevicePasswords.DevicePasswords.Set | crates/app/admin/src/device_password.rs:167-190 | each refusal in order (16 characters, 32 people), the file untouched by a refusal; otherwise the hash and the time of the change replace that person's entry, and the other entries stay |
| DevicePasswords.DevicePasswords.Clear | crates/app/admin/src/device_password.rs:200-209 | false and untouched if there was none |
| DevicePasswords.DevicePasswords.Persist | crates/app/admin/src/device_password.rs:238-245 | the new document replaces the old whole |
| AuditTail.Records | crates/app/admin/src/audit_api.rs:228-254 | the loop over the lines of the text, newest first, stopping when full |
| AuditTail.LinesOfWritten | crates/app/admin/src/audit_api.rs:228-254 | lines written one after another, each followed by a newline or by a carriage return and a newline, are the lines that are read; an unended end is a line as it stands, carriage return included |
| AuditTail.EveryText | crates/app/admin/src/audit_api.rs:228-254 | every text is such a list and an end |
| AuditTail.LinesHold | crates/app/admin/src/audit_api.rs:228-254 | no line holds a newline |
| AuditTail.LinesCount | crates/app/admin/src/audit_api.rs:228-254 | there are as many lines as newlines, plus one for an unended end that is not empty |
| AuditTail.ReadableOne | crates/app/admin/src/audit_api.rs:228-254 | one line yields its record, or nothing if it is empty or cannot be read |
| AuditTail.RecordsAreNewest | crates/app/admin/src/audit_api.rs:228-254 | the records are the newest readable lines, as many as asked for, and every line looked at is accounted for |
| AuditTail.AccountedExactly | crates/app/admin/src/audit_api.rs:228-254 | scanned is returned plus unreadable, for all limits, except a limit of 0 exactly when the newest line can be read |
| AuditTail.CompleteExactly | crates/app/admin/src/audit_api.rs:287-298 | the window is cut after the first newline in it, and is empty if there is none |
| AuditTail.WindowIsSuffix | crates/app/admin/src/audit_api.rs:287-298 | the window's complete lines are the newest lines of the log |
| AuditTail.WindowRefines | crates/app/admin/src/audit_api.rs:228-299 | the windowed records are a prefix of the full scan's, the same answer when the window fills it or holds the log, and all of them exactly when there are no more |
| AuditTail.ReadWindow | crates/app/admin/src/audit_api.rs:265-286 | the seek and the bounded read: what was seen of the file, from the window on |
| AuditTail.ReadTail | crates/app/admin/src/audit_api.rs:265-300 | the bounded read, whatever is appended meanwhile; a missing log is empty |
| Poller.StepFair | sites/console/app.js:3885-3913 | every event of the page, of the daemon and of the stream keeps what the next row states |
| Poller.NeverQuiet | sites/console/app.js:3861-3948 | in every interleaving no two refreshes overlap, a live page has one in flight or a timer armed, polls asked for are followed by later refreshes, replies apply in the order their refreshes started, and neither replies nor pushed snapshots take the page back among themselves |
| Poller.BackExactly | sites/console/app.js:3861-3948 | exactly when a page that has only moved forward goes back: a reply put on it after a newer pushed snapshot, or a pushed snapshot after a newer reply |
| Poller.RisesExactly | sites/console/app.js:3861-3948 | over every run, the page never goes back if and only if no reply and no snapshot of the run is overtaken in that way |
| Poller.GoesBack | sites/console/app.js:3861-3948 | a run of each |
| Poller.UnpushedRises | sites/home/app.js:820-835 | a page nothing is pushed to never shows an older state over a newer one |
| Poller.CatchesUp | sites/console/app.js:3890-3894 | once nothing older is on its way, and for as long as nothing changes, only the present state is put on the page |
| Poller.WakeUp | sites/console/app.js:3899-3913 | a poll asked for during a refresh is met by a timer without delay and a refresh that starts after it |
| Poller.Cadence | sites/console/app.js:3903-3913 | with no poll asked for meanwhile a live page waits its ordinary delay; a page that was left arms nothing |
| Poller.PollStarts | sites/console/app.js:3885-3902 | a poll starts a refresh if the page is live and none is in flight, and does nothing on a page that was left |
| Poller.TimerExactly | sites/home/app.js:815-818 | a new cadence replaces the timer of a live page and nothing else |
| Poller.NoLostWakeUp | sites/home/app.js:822-835 | however the page is used afterwards, a refresh has started since, or is remembered, or a timer is armed |
| Poller.Client.constructor | sites/console/app.js:2753-2755 | nothing in flight |
| Poller.Client.Schedule | sites/home/app.js:815-818 | one timer, replaced |
| Poller.Client.Poll | sites/console/app.js:3899-3902 | starts a refresh or remembers one is wanted, and keeps the page sound |
| Poller.Client.TimerFires | sites/console/app.js:3885-3888 | the timer is spent and the poll runs |
| Poller.Client.Enter | sites/console/app.js:3148-3155 | the console is shown and polls |
| Poller.Client.Leave | sites/console/app.js:3091-3093 | no timer is left armed |
| Poller.Client.TakeReply | sites/console/app.js:3942-3947 | the reply of the refresh in flight is put on the page |
| Poller.Client.ApplySnapshot | sites/console/app.js:3861-3877 | a pushed snapshot is put on the page whatever is in flight |
| Poller.Client.Finally | sites/console/app.js:3905-3912 | the settling half, which re-arms the timer of a live page |
| Paste.TextChunks | sites/console/app.js:1534-1549 | the chunks join to the text, none empty, each within the room, each filled before the next was begun |
| Paste.Utf8Exactly | sites/console/app.js:1515-1517 | the bytes of one character: how many, the marks they carry, and that the bits they leave are the character's; a lone surrogate is the replacement character |
| Paste.MessageExactly | sites/console/app.js:1515-1524 | exactly the texts of 1 to 1024 bytes are messages: 0x41, the length in two bytes, the text |
| Paste.Preserved | sites/console/app.js:1515-1549 | each chunk becomes a message with its own UTF-8 and true length, and the payloads are the text's UTF-8 |
| Paste.FewestPieces | sites/console/app.js:1534-1549 | no cut into pieces that fit has fewer |
| Base64Url.BufToB64url | sites/console/app.js:221-231 | the loop spells the sextets of the bytes |
| Base64Url.AlphabetIs | sites/console/app.js:220-231 | the sixty-four symbols, in order |
| Base64Url.EncodedExactly | sites/console/app.js:221-231 | what one, two and three bytes are written as, the high bits first |
| Base64Url.B64urlToBuf | sites/console/app.js:235-254 | the loops read them back, or refuse |
| Base64Url.RoundTrip | sites/console/app.js:221-254 | decoding the encoding of every byte sequence returns it |
| Base64Url.RefusesExactly | sites/console/app.js:235-246 | refuses exactly a foreign symbol and a symbol count of 1 over 4 |
| Base64Url.ReEncodesExactly | sites/console/app.js:221-254 | re-encoding is the identity exactly on unpadded input whose spare bits are zero |

## Left out

- Real cryptography, key files and scrypt: only the symbolic terms are kept. The handshake carries its own symbolic `SessionKeys`, with the counters and checks of `SecureChannel.SecurityKeys`; `Session.HandshakeOpensTunnel` carries their counters over.
- The SecureVPN server program, reconnection and rekeying: the server's four protocol steps are modelled, its sockets are not.
- Tunnel.AllForwarded: stops short of the counter limit, since sealing is refused once the counter has reached 2^64 - 1000.
- DeskView.DeskViewer.PaintTile: drawing contexts a browser may refuse to give are not modelled, nor is blending of pixels that are neither opaque nor clear, which `DeskView.Valid` shows do not arise.
- DamageRuns.ReplicaOfCaptures: for reports that name every pixel that changed since the last frame that was taken, or name nothing; how a platform computes its reports is not modelled, nor what rebuilding the screen source after a torn frame does to them.
- Switching displays from the viewer (`chooseMonitor`), cursor shapes and positions, frame rates, the end-to-end clock and every counter shown on the plate.
- The table from key codes to HID usages: a key is named by its usage, and a code without one is a key event without a usage. Wheel remainders and the position arithmetic are parameters of the events.
- A send that throws on an open socket: sockets are open, or not.
- What the far machine does by itself when a channel closes: a stream lost rather than given up promises nothing here.
- DavAuth: grants, the Basic header's parsing, and the fairness of the slot queue; a request may be served in any order. A verification reads the store at one moment between taking its slot and being remembered.
- The WebDAV verbs beyond authentication, the lock table, the resolver and the storage engine.
- The keyed hash of a fingerprint is taken to be one to one, and constant-time comparison is comparison.
- DevicePasswords: the JSON text itself; a file is missing, unreadable, not JSON, or a JSON value. Which texts are names of people and which are stored hashes are parameters.
- AuditTail: what a line parses to is a parameter; the lossy reading of stray bytes is part of it.
- Poller: the delays are parameters of the events; a refresh is its start, the moment its answer is read, its effect and its end; what it fetches besides the services is not modelled, nor are the tickets and delays with which the stream is opened.
- Session: the thirty-second timeout of a read, and the reconnection after a failure.
- The home page's slider holds, the agents' own record file (`agent_store.rs`), the log tail's timer, the functions that choose wording, drawing, and the wiring of events to handlers.
