# Models of enigma2 and OSCam internals

This project states, and proves with Dafny, what the hardest parts of two
programs in this repository do: the recording scheduler, the skin layout, the
XML writer and the crash log of enigma2, and the CCcam and gbox protocols, the
card sharing, the cache exchange and the descrambler control of OSCam.

| file | what it models |
|---|---|
| Bytes, Sequences | bytes, exclusive-or by its bits, and what several models share |
| CcCipher, CcSession, CcConnection, CcHandshake | the CCcam cipher, its messages and control word replies, one end of a connection, and the login |
| Gbox | the gbox block cipher |
| TimerValues, RecordTimer | a timer entry's values, and the scheduler with its two lists and its recorders |
| HitCache | the linked list of recent cache hits |
| Propagation | cards travelling through a network of servers |
| Gossip | control words travelling through a network of servers |
| ShareList, ShareServer | a server's share list and a client's copy of it, as functions and as the running program |
| CardCodec | the card announcement on the wire |
| NanoSort, PidTrial | sorting of descriptor blocks, choice of the next PID, free descrambler index |
| CData, LogBuffer, SkinLayout | CDATA escaping, the crash log's ring, docking layout |

Code that works in place is modelled in place: classes with the program's
fields, arrays for its buffers, loops where it has loops. Each method is proved
equal to a function on values, and the properties are proved about these
functions, about whole runs where there are runs. Protocols between machines
are state machines whose steps may happen in any order.

## What the proofs say about the programs

The session of CCcam survives its own extra step. After a control word reply
the two ends run their cipher over different bytes, so their state bytes part;
one byte of the next message puts them together again, and that byte is the
flag. `CcSession.SessionFollows` is the statement over whole runs,
`SessionDelivers` says which runs are delivered in full, `FlagsIntactIff` when
the flags survive too, `DriftExample` that they do not always.

Some things the programs do not do, each with the exact rule:

- A message that withdraws a card deletes the request in flight for it. If the
  server is still working on the request and then answers, the reader finds no
  request and closes the connection: `CcSession.WithdrawnInFlight`. A session is
  delivered in full if and only if this does not happen and nothing makes the
  reader start anew: `SessionDelivers`.
- The receive call compares a message's length with the size of its buffer, not
  with what the header leaves of it, so the four longest lengths it accepts do
  not fit: `CcSession.StaysInsideIff`, `LongestAcceptedOverruns`.
- Of a password the server's check sees the length and the exclusive-or of the
  bytes, so "ba" lets in a client with "ab": `CcHandshake.SameLengthAcceptedIff`,
  `LoginAcceptedIff`.
- The account loop decrypts the client's proof in place and does not restore it,
  so a second account with the same user name is checked against a spoilt
  proof: `CcHandshake.SecondAccountIff`. The comment in the source
  (module-cccam.c:3251) says that such accounts exist.
- The loop of `processRepeated` ends if and only if one of the seven weekday
  bits is set: `TimerValues.StopsIff`.
- An activation that finds no service leaves the entry due at once; every other
  activation makes progress: `TimerValues.ProgressIff`. So the scheduler's loop
  runs on until the clock has passed the entry's end:
  `RecordTimer.RecordTimer.ProcessActivation`. For repeating entries the service
  must come back, else an entry that is due at its restart keeps it running:
  `TimerValues.DueAgainIff`, and `FullDayStuckAgain` for a daily one.
- The edit screen may turn a prepared or running recording into a zap timer or
  back. Then, and only then, an edited entry has not the recorder it must have:
  `RecordTimer.Entry.EditKeepsRecorderIff`; a running one that ends as a zap
  timer never gives its recorder back: `EndAsZap`.
- A client discards a card that looks like one it has, and does not hear of it
  again as long as it is connected. A refresh arrives completely if and only if
  no two cards of the list look the same to the client and it has all that are
  handed on: `ShareList.UpdateExactIff`.
- An answer that is found after its request was given up is kept to the server,
  and so is a push that is taken for a client that has been told "not found" and
  is still there. Whatever is found in time reaches every neighbour it is allowed
  to reach, if nothing is lost: `Gossip.GossipSpreads`, `LateIsSilent`,
  `LateAnswerStays`.
- A provider id that does not fit into three bytes, or the marker of CAID 17xx,
  does not survive a card announcement: `CardCodec.ProvidersArriveIff`. Reading
  an announcement trusts its four counters: `CardCodec.ReadsInsideIff`,
  `FullCountersLeadOut`.
- `cDataFromString` puts a line feed of its own inside the section, and loses
  the text from the first NUL on: `CData.WrittenText`, `WholeTextWrittenIff`.
- The crash log loses NUL bytes at the front of the window:
  `LogBuffer.LeadingNulLost`.
- A docked widget larger than what is left covers pixels outside its context:
  `SkinLayout.PlaceSplitsIff`.

## Assumptions

- Times are whole seconds. During one operation of the scheduler the clock moves
  on only while no service is found, and it never goes back; local time is UTC
  plus a fixed offset. The repetition loop compares broken-down times, in which
  a time that was moved by a day sorts before an equal one that was not, so an
  end equal to now counts as past there; the model keeps this.
- Critical sections are single steps, sockets are byte sequences, and a network
  may lose and reorder what is in flight.
- What the receiver hardware, the operating system and other libraries answer is
  a parameter: outcomes of preparing and starting a recording (for a repeating
  entry there is a service from some time on), the conflict check, SHA-1's
  result (the same twenty bytes at both ends).
- gbox buffers have at least nine bytes, as the window at the end demands.
- A node has one id, and no node is linked to itself.

## Model

| member | source | states |
|---|---|---|
| CcCipher.CryptBlock.Init | oscam/oscam_8249/module-cccam.c:35-51 | keying a block in place gives the table of the key schedule, counter and sum 0, and the first key byte as state |
| CcCipher.CryptBlock.NextKeyByte | oscam/oscam_8249/module-cccam.c:59-64 | one step of counter, sum and table, and the key byte read off the new table; the state is untouched |
| CcCipher.CryptBlock.CryptOne | oscam/oscam_8249/module-cccam.c:58-69 | one byte through either cipher in either mode: what comes out and the whole new block |
| CcCipher.CryptBlock.Crypt | oscam/oscam_8249/module-cccam.c:53-88 | a stretch of a buffer is rewritten in place by the byte-wise specification, and nothing outside it |
| CcCipher.CryptBlock.CopyFrom | oscam/oscam_8249/module-cccam.c:3265-3282 | saving and restoring a block copies table, counter, sum and state and leaves the source alone |
| CcCipher.CryptAppend | oscam/oscam_8249/module-cccam.c:53-88 | a message run through a cipher in two pieces gives the same bytes and the same block as in one |
| CcCipher.RingIgnoresData | oscam/oscam_8249/module-cccam.c:58-63 | table, counter and sum after a run depend on its length only, not on data, cipher or mode |
| CcCipher.TableStaysPermutation | oscam/oscam_8249/module-cccam.c:35-88 | from every non-empty key, after every run, the key table holds each of 0..255 exactly once |
| CcCipher.SchedulePermutes | oscam/oscam_8249/module-cccam.c:43-46 | every swap of the key schedule keeps the table free of repeats |
| CcCipher.AdvancePermutes | oscam/oscam_8249/module-cccam.c:59-61 | so does every step of the ciphers |
| CcCipher.StateIsXorOfPlain | oscam/oscam_8249/module-cccam.c:62-68 | a run changes the state by the exclusive-or of its plain bytes, in both modes |
| CcCipher.OneByteResync | oscam/oscam_8249/module-cccam.c:62-68 | two ends with one ring and any two states have the same block after a single byte; that byte is off by the difference |
| CcCipher.RoundTrip | oscam/oscam_8249/module-cccam.c:53-88 | with equal blocks decryption undoes encryption and both ends stay equal, for either cipher |
| CcCipher.EncryptUndoesDecrypt | oscam/oscam_8249/module-cccam.c:53-70 | the reverse: encrypting what was decrypted gives the wire bytes back |
| CcCipher.Resync | oscam/oscam_8249/module-cccam.c:53-70 | with equal rings and any two states everything after the first byte arrives, and the blocks end equal |
| CcCipher.ByteOfStream | oscam/oscam_8249/module-cccam.c:58-69 | one byte through either cipher, read off the table as it was before the step: where the key byte stands, and what is added to the data |
| CcCipher.CounterAndSum | oscam/oscam_8249/module-cccam.c:59-60 | after n bytes the counter has gone up by n and the sum by the table entries read, both modulo 256 |
| CcCipher.KnownAnswer | oscam/oscam_8249/module-cccam.c:53-88 | three zero bytes through RC4 with the identity table give 2, 5, 7 |
| CcCipher.KeyRepeats | oscam/oscam_8249/module-cccam.c:43-46 | a key written twice gives the table of the key: its bytes are used in turn |
| CcCipher.KnownSchedule | oscam/oscam_8249/module-cccam.c:35-51 | the key 0, 0, 255, 254, .., 2 leaves every entry of the table where it is, with counter, sum and state 0 |
| CcCipher.FirstByteOfKey | oscam/oscam_8249/module-cccam.c:48-50 | through a new block the first byte is added to a key byte and to the first byte of the key |
| CcSession.FrameArrives | oscam/oscam_8249/module-cccam.c:504-569 | any payload, any two states, any limit and buffer: whether the receiver takes, refuses or overruns, what it takes and what it leaves on the wire, including payloads longer than the 16-bit length |
| CcSession.Receives | oscam/oscam_8249/module-cccam.c:527-569 | the call on any four bytes that announce what follows: the three outcomes, by the announced length alone |
| CcSession.StaysInsideIff | oscam/oscam_8249/module-cccam.c:538-548 | for every wire: a call stays inside its buffer if and only if the announced length leaves room for the header, or is refused, or less has arrived than would reach the end |
| CcSession.LongestAcceptedOverruns | oscam/oscam_8249/module-cccam.c:540-546 | a message as long as the buffer, and the limit, is not refused and is written past the end |
| CcSession.WholeFrameArrives | oscam/oscam_8249/module-cccam.c:575-611 | a frame within the limits arrives with command, length and payload intact; only the flag depends on the states |
| CcSession.FrameBytes | oscam/oscam_8249/module-cccam.c:597-604 | a frame byte by byte: flag, command, the length with its high byte first, the payload |
| CcSession.TakesIff | oscam/oscam_8249/module-cccam.c:3110-3118 | of the frames its buffer holds a reader takes those of up to 1020 bytes of payload, and no others |
| CcSession.ServerTakesIff | oscam/oscam_8249/module-cccam.c:3110-3118 | so does a server, for every command |
| CcSession.WordsTakenIff | oscam/oscam_8249/module-cccam.c:2661-2691 | sixteen bytes with command 1 are taken as control words if and only if a request is in flight |
| CcSession.ScrambleIsMask | oscam/oscam_8249/module-cccam.c:102-120 | scrambling control words is exclusive-or with a mask of node and card id |
| CcSession.ScrambleRoundTrip | oscam/oscam_8249/module-cccam.c:102-120 | the words extracted are the words sent if and only if the masks of the two ends agree |
| CcSession.ScrambledBit | oscam/oscam_8249/module-cccam.c:102-120 | bit j of scrambled byte i is that bit of the word, plus bit 4i + j of the node id, plus bit 2i + j of the card id, plus i, modulo 2 |
| CcSession.ReplyBytes | oscam/oscam_8249/module-cccam.c:3038-3049 | a reply is one run over command 1, length 16 and the scrambled words twice, of which the second time is not sent |
| CcSession.ExtraStep | oscam/oscam_8249/module-cccam.c:3043-3049 | the extra runs after a reply, on scrambled words here and plain words there, keep the rings equal and part the states by the mask |
| CcSession.SessionFollows | oscam/oscam_8249/module-cccam.c:2161-2756 | whole runs of messages and control word replies, whatever the reader has asked for and when: it sees every command and payload as sent, words as its own pending request makes them of the scrambled ones, a flag off by exactly the drift before it, up to the first reply without an entry or message it gives up on; nothing overruns the buffer; a run that lasts ends with equal rings |
| CcSession.SeenInFullIff | oscam/oscam_8249/module-cccam.c:424-443 | from any point of a run: the rest is seen as sent if and only if no message but the last makes the reader start anew, no request is withdrawn in flight, and one that is withdrawn already is followed by a new one before the next reply |
| CcSession.SessionDelivers | oscam/oscam_8249/module-cccam.c:2661-2691 | a server that answers each request once: its session is delivered as sent, words included and flags up to the drift, if and only if no request is withdrawn while the server works on it and no message but the last makes the reader start anew |
| CcSession.WithdrawnInFlight | oscam/oscam_8249/module-cccam.c:1864-1879 | the server withdraws a card, then answers the request for it: the reader gets the withdrawal, not the words, and closes the connection |
| CcSession.MessageEffects | oscam/oscam_8249/module-cccam.c:2174-2973 | for every message, by its number, length and first four bytes: whether it ends the wait for an answer, and whether it shows that the login is over |
| CcSession.GivesUpIff | oscam/oscam_8249/module-cccam.c:2174-2973 | the messages on which a reader closes the connection, by number and length |
| CcSession.LastsIfInFull | oscam/oscam_8249/module-cccam.c:2661-2671 | a session seen in full, without a message that makes the reader start anew, has not been given up, so the rings are equal at its end |
| CcSession.ServerTakes | oscam/oscam_8249/module-cccam.c:2563-2659 | what a client sends, requests for control words included, the server takes as sent, in order, up to a command it disconnects on; both blocks are equal afterwards |
| CcSession.FlagsIntactIff | oscam/oscam_8249/module-cccam.c:3043-3049 | the flags of a run arrive intact if and only if no event but the last leaves a drift |
| CcSession.DriftExample | oscam/oscam_8249/module-cccam.c:3043-3049 | a card id and node id for which a reply corrupts the next flag |
| CcConnection.Connection.CmdSend | oscam/oscam_8249/module-cccam.c:575-611 | what one call puts on the wire, with or without header, and the block afterwards |
| CcConnection.Connection.Take | oscam/oscam_8249/module-cccam.c:455-479 | reading from the socket, when it is neither slow nor in error: how many bytes, where they land, what is left |
| CcConnection.Connection.TakeDecrypted | oscam/oscam_8249/module-cccam.c:526-561 | reading and decrypting in place, or draining the socket when too little is there |
| CcConnection.Connection.MsgRecv | oscam/oscam_8249/module-cccam.c:504-569 | for any limit up to the size of the buffer: return value, flag, buffer, block and socket after one received message, and whether the program would leave the buffer |
| CcConnection.Connection.CwCrypt | oscam/oscam_8249/module-cccam.c:102-120 | the loop that scrambles sixteen bytes in place |
| CcConnection.Connection.SendDcw | oscam/oscam_8249/module-cccam.c:3038-3049 | the reply with scrambled words and the extra run after it |
| CcConnection.Connection.HandleCw | oscam/oscam_8249/module-cccam.c:2681-2691 | the words extracted from a reply and the extra run on them |
| CcConnection.Connection.NoteRequest | oscam/oscam_8249/module-cccam.c:1357-1369 | a request that is sent becomes the one in flight |
| CcConnection.Connection.ParseMessage | oscam/oscam_8249/module-cccam.c:2174-2973 | what each message does to the request in flight, and which ones make the reader give the connection up |
| CcConnection.Connection.ReceiveOne | oscam/oscam_8249/module-cccam.c:3081-3130 | one message of a reader's receive loop, with the buffer's own size as limit, does one step of the session specification |
| CcConnection.Connection.ReceiveAll | oscam/oscam_8249/module-cccam.c:3081-3130 | the reader's loop, in a buffer of exactly the given size and with requests sent in between, delivers what the session specification says |
| CcConnection.Connection.ServeOne | oscam/oscam_8249/module-cccam.c:3081-3130 | one message of a server's receive loop |
| CcConnection.Connection.Serve | oscam/oscam_8249/module-cccam.c:3081-3130 | the server's loop takes what the specification says |
| CcConnection.Connection.SendEvents | oscam/oscam_8249/module-cccam.c:3038-3049 | one call after the other puts on the wire what the session specification says |
| CcConnection.Deliver | oscam/oscam_8249/module-cccam.c:2661-2691 | the session theorem on two connection objects: what an honest server sends, message by message, the reader delivers in full if and only if no request is withdrawn in flight and no message but the last makes it start anew |
| CcConnection.DeliverToServer | oscam/oscam_8249/module-cccam.c:2563-2659 | and what a client sends the server takes; their blocks are equal afterwards |
| CcHandshake.CcXor | oscam/oscam_8249/module-cccam.c:90-100 | masking the seed in place |
| CcHandshake.SeedIs | oscam/oscam_8249/module-cccam.c:90-100 | the masked seed: the bits of its first six bytes are added to those of "CCcam", two bytes stay, and byte 8 + i is i times byte i as it was, modulo 256 |
| CcHandshake.SetUpUndone | oscam/oscam_8249/module-cccam.c:3207-3217 | the set-up backwards: a second key encrypts under the hash to the masked seed, and under that key the proof encrypts to the hash; the two blocks are what these runs leave |
| CcHandshake.MagicWords | oscam/oscam_8249/module-cccam.c:3527-3552 | the bytes of the proof and of the answer |
| CcHandshake.SetUpKeys | oscam/oscam_8249/module-cccam.c:3207-3217 | from one seed and hash the server sets up crosswise what the client sets up, and both leave the same proof |
| CcHandshake.SetUpFrom | oscam/oscam_8249/module-cccam.c:3502-3515 | the same for a fresh copy of seed and hash |
| CcHandshake.SendLogin | oscam/oscam_8249/module-cccam.c:3517-3531 | the bytes of the three login messages and the client's block after the password step |
| CcHandshake.CheckAccounts | oscam/oscam_8249/module-cccam.c:3261-3290 | the account loop, which decrypts the proof in place for every account with the client's user name |
| CcHandshake.ReceiveLogin | oscam/oscam_8249/module-cccam.c:3221-3290 | the server's return code, user name, account and block, for complete, short and illegal logins |
| CcHandshake.ShortLogin | oscam/oscam_8249/module-cccam.c:3221-3258 | a connection that ends within the three messages: the return code by the number of bytes |
| CcHandshake.IllegalNameRefused | oscam/oscam_8249/module-cccam.c:3233-3238 | a name with a control character among its first twenty bytes is refused, whatever the password and the accounts |
| CcHandshake.SameUserIff | oscam/oscam_8249/module-cccam.c:3269 | two names are the same to the server if they are equal or agree in twenty bytes |
| CcHandshake.CheckSucceedsIff | oscam/oscam_8249/module-cccam.c:3281-3287 | for every account and every six bytes: the check succeeds if and only if they are what a client sends behind this account's password |
| CcHandshake.SameLengthAcceptedIff | oscam/oscam_8249/module-cccam.c:3281-3287 | a client whose password has the account's length passes the check if and only if the bytes of the two passwords have the same exclusive-or |
| CcHandshake.SwappedPasswordAccepted | oscam/oscam_8249/module-cccam.c:3281-3287 | so the password of two bytes in the other order is accepted |
| CcHandshake.OnlyAccountIff | oscam/oscam_8249/module-cccam.c:3267-3290 | the account loop for a name with one account of that password length: accepted or rejected by the exclusive-or, right password or not |
| CcHandshake.LoginAcceptedIff | oscam/oscam_8249/module-cccam.c:3221-3290 | the same for a whole login |
| CcHandshake.LongPasswordsPart | oscam/oscam_8249/module-cccam.c:3271-3283 | from 64 bytes on the server, which cuts passwords there, is one key step ahead of the client, which cuts them at 63 |
| CcHandshake.RightAccountAcceptedIff | oscam/oscam_8249/module-cccam.c:3267-3290 | any number of accounts of one name before the right one: it is accepted if and only if the checks before it, replayed, left the proof as received |
| CcHandshake.SecondAccountIff | oscam/oscam_8249/module-cccam.c:3267-3290 | two accounts of one name, the second one the client's, the first with a password of the same length: accepted if and only if the six bytes received are the magic word with its first byte changed by the exclusive-or of the two passwords, else rejected |
| CcHandshake.FirstMatchUntouched | oscam/oscam_8249/module-cccam.c:3268-3276 | without an earlier account of that user nothing has touched the proof |
| CcHandshake.SecondAccountRefused | oscam/oscam_8249/module-cccam.c:3281-3290 | so the second account is rejected, with its own password, unless the exclusive-or of the first one's password is one particular byte that the block determines |
| CcHandshake.LoginSucceeds | oscam/oscam_8249/module-cccam.c:3221-3290 | an honest client is accepted as the first account of its name, and the two ends' blocks are equal |
| CcHandshake.LoginThenSession | oscam/oscam_8249/module-cccam.c:3207-3332 | from the seed through the login to whole sessions: what the client sends, requests included, arrives as sent, flags too; what the server sends is delivered, with an intact first flag, exactly under the condition of the session theorem |
| CcHandshake.Answer | oscam/oscam_8249/module-cccam.c:3327-3333 | the server's answer is what the client expects, and leaves its sending block equal to the client's receiving block |
| CcHandshake.LogIn | oscam/oscam_8249/module-cccam.c:3502-3582 | both ends run on objects: the server takes the client for that account, the client takes the answer for a welcome, all blocks are crosswise equal, and the client has no request in flight |
| Gbox.UnrotUndoesRot | oscam/oscam_8249/module-gbox.c:99-118 | one rotation of the 32-bit key to the left undoes one to the right, and the reverse |
| Gbox.FullRotation | oscam/oscam_8249/module-gbox.c:160-176 | thirty-two rotations give the key back |
| Gbox.BytesUndone | oscam/oscam_8249/module-gbox.c:99-194 | one substitution step is undone by its inverse for every byte, neighbour and key byte, in both directions |
| Gbox.DecUndoesEnc | oscam/oscam_8249/module-gbox.c:99-194 | a sub-cipher run backwards from the rotated key restores window and key |
| Gbox.EncUndoesDec | oscam/oscam_8249/module-gbox.c:99-194 | and the reverse |
| Gbox.KeySurvives | oscam/oscam_8249/module-gbox.c:99-194 | every sub-cipher call leaves the key as it was |
| Gbox.WindowRoundTrip | oscam/oscam_8249/module-gbox.c:99-194 | a sub-cipher applied to a window anywhere in a buffer is undone, and the rest of the buffer is untouched |
| Gbox.ChainRoundTrip | oscam/oscam_8249/module-gbox.c:142-158 | the exclusive-or chain over a buffer of any length is undone, in both orders |
| Gbox.GboxRoundTrip | oscam/oscam_8249/module-gbox.c:196-206 | decryption undoes encryption and the reverse, for every buffer of at least nine bytes and every key, overlapping windows included |
| Gbox.RotIsShift | oscam/oscam_8249/module-gbox.c:106-110 | one rotation divides the 32-bit key by two and puts the last bit on top |
| Gbox.EightBits | oscam/oscam_8249/module-gbox.c:99-118 | the bits of a step of `gbox_encrypt8`, for every window, position and key: which byte changes, from which table entries and which two key bytes |
| Gbox.ABits | oscam/oscam_8249/module-gbox.c:160-176 | the same for `gbox_encryptA` |
| Gbox.KnownSteps | oscam/oscam_8249/module-gbox.c:91-176 | two steps of each kind from known bytes |
| Gbox.LongBuffer | oscam/oscam_8249/module-gbox.c:142-206 | the whole encryption where the two windows do not overlap: what each of them goes through, neighbours added in between, and the last byte as it was |
| Gbox.RotateRight | oscam/oscam_8249/module-gbox.c:104-117 | the key array is rotated in place |
| Gbox.RotateLeft | oscam/oscam_8249/module-gbox.c:125-139 | and back |
| Gbox.StepInPlace | oscam/oscam_8249/module-gbox.c:99-118 | one step on the buffer rewrites one byte |
| Gbox.EncryptWindow | oscam/oscam_8249/module-gbox.c:99-176 | `gbox_encrypt8` and `gbox_encryptA` in place: the specified window, nothing else, and the key as before |
| Gbox.DecryptWindow | oscam/oscam_8249/module-gbox.c:120-194 | the same for the two inverses |
| Gbox.EncryptBufferB | oscam/oscam_8249/module-gbox.c:151-158 | chain and both windows in place |
| Gbox.DecryptBufferB | oscam/oscam_8249/module-gbox.c:142-149 | the inverse order in place |
| Gbox.EncryptBuffer | oscam/oscam_8249/module-gbox.c:196-200 | the whole encryption in place |
| Gbox.DecryptBuffer | oscam/oscam_8249/module-gbox.c:202-206 | the whole decryption in place |
| TimerValues.FirstDay | enigma2/timer.py:69-72 | the round at which the repetition loop stops, all rounds before it being skipped |
| TimerValues.StopDayStops | enigma2/timer.py:69-72 | a round at which the loop has certainly stopped |
| TimerValues.StopsIff | enigma2/timer.py:60-72 | the loop ends if and only if one of the seven weekday bits is set |
| TimerValues.RepeatedMeetsItsGoal | enigma2/timer.py:48-80 | the first enabled day that is neither before the series nor over (or not begun, as asked), every day passed over failing one of these, with the duration kept |
| TimerValues.RepetitionIsFirstFit | enigma2/timer.py:48-80 | for any set of weekday flags: the repetition moves to the first day of the clock that falls on one of them, is not before the series and not over |
| TimerValues.RepeatsOnItsDay | enigma2/timer.py:64-72 | a series on weekday d, counted from Monday, begins on a day whose number since 1970 is d + 4 modulo 7 |
| TimerValues.RepeatedIsIdempotent | enigma2/timer.py:48-80 | a second call at the same clock changes nothing |
| TimerValues.FinishedMovesOn | enigma2/RecordTimer.py:582-587 | a finished occurrence moves at least a day on and is then not over |
| TimerValues.DelayDoubles | enigma2/RecordTimer.py:253-259 | after n failures in a row the delay is 5 seconds doubled n - 1 times, at most 100 |
| TimerValues.ProgressIff | enigma2/RecordTimer.py:262-447 | a due entry gets strictly closer to the end at this clock value if and only if it is not stuck without a service; a stuck one changes a single flag |
| TimerValues.DueAgainIff | enigma2/timer.py:48-80 | a repeating entry that has ended is due again at once if and only if a day at which the repetition may stop begins, up to the time for preparing, by now; if there is still no service it is stuck again |
| TimerValues.FullDayStuckAgain | enigma2/timer.py:48-80 | so a daily entry that lasts a full day is due and stuck again at every restart while there is no service |
| TimerValues.RestartRanksLower | enigma2/RecordTimer.py:582-587 | a repeating entry that has ended starts again strictly below the rank it had |
| TimerValues.RestartedIsFixed | enigma2/RecordTimer.py:584-587 | processing a restarted entry again on re-entry changes nothing |
| TimerValues.HoldsChanges | enigma2/RecordTimer.py:286-394 | a recorder is taken up only on preparing, kept while running, and given back only at the end |
| TimerValues.LifeOfARecording | enigma2/RecordTimer.py:262-415 | without trouble: due 20 seconds ahead, at the begin and at the end, through states 0, 1, 2, 3, with a recorder from the first to the last of these times |
| TimerValues.LifeOfAZap | enigma2/RecordTimer.py:262-415 | a zap timer goes through the same states whatever the receiver answers, without a recorder |
| TimerValues.RetryOfPreparing | enigma2/RecordTimer.py:253-290 | after n failures a recording that cannot be prepared is due again after the next delay of the series |
| TimerValues.RetryOfStarting | enigma2/RecordTimer.py:358-365 | one that cannot be started stays prepared, and its begin moves by the next delay |
| TimerValues.EndOfExtension | enigma2/RecordTimer.py:371-415 | an extended recording goes on for a day, or up to 30 seconds before an overlapping timer, if that is not over; otherwise it ends |
| TimerValues.TooLate | enigma2/RecordTimer.py:563-567 | an entry that is over before it was prepared ends |
| TimerValues.SteppingEvolves | enigma2/RecordTimer.py:262-415 | what no activation changes: repetition, flags, and for plain entries the times and the direction of the state |
| RecordTimer.Navigation.RecordService | enigma2/RecordTimer.py:212-212 | a recorder never handed out before, owned by the caller |
| RecordTimer.Navigation.StopRecordService | enigma2/RecordTimer.py:380-380 | a recorder is given back; only one in use can be |
| RecordTimer.Entry.SetRecordService | enigma2/RecordTimer.py:491-500 | the property setter changes the subscriptions by exactly one entry less or more |
| RecordTimer.Entry.Acquire | enigma2/RecordTimer.py:212-212 | afterwards the entry has one recorder and one subscription, and no other entry is affected |
| RecordTimer.Entry.Release | enigma2/RecordTimer.py:247-248 | afterwards it has neither, and its recorder is no longer in use |
| RecordTimer.Entry.DoBackoff | enigma2/RecordTimer.py:253-259 | the delay becomes the next one of the series 5, 10, 20, 40, 80, 100 |
| RecordTimer.Entry.SkipDays | enigma2/timer.py:69-72 | the loop that moves begin and end day by day stops at the specified day |
| RecordTimer.Entry.ProcessRepeats | enigma2/timer.py:48-80 | repetition on the object |
| RecordTimer.Entry.TryPrepare | enigma2/RecordTimer.py:200-251 | answer, recorder, delay and next attempt in each of the outcomes |
| RecordTimer.Entry.Prepare | enigma2/RecordTimer.py:286-326 | the step to the prepared state |
| RecordTimer.Entry.StartRecording | enigma2/RecordTimer.py:328-370 | the step to the running state, or a new begin after a back-off |
| RecordTimer.Entry.StopOrExtend | enigma2/RecordTimer.py:372-394 | the step to the end, or an extension; the recorder is released exactly if the entry ends and is no zap timer |
| RecordTimer.Entry.EditKeepsRecorderIff | enigma2/lib/python/Screens/TimerEntry.py:319-319 | an edit of a listed entry leaves it with the recorder it must have if and only if it does not turn a prepared or running recording into a zap timer or back |
| RecordTimer.Entry.EndAsZap | enigma2/RecordTimer.py:379-381 | a running recording that was turned into a zap timer has ended, and its recorder is still in use |
| RecordTimer.Entry.Activate | enigma2/RecordTimer.py:262-394 | the new values, and that the entry has a recorder exactly if its new state needs one |
| RecordTimer.Entry.SetAutoincreaseEnd | enigma2/RecordTimer.py:396-415 | the new end and whether there is one |
| RecordTimer.Entry.Cancel | enigma2/RecordTimer.py:960-965 | the edits of a removal |
| RecordTimer.Entry.Abort | enigma2/timer.py:97-105 | aborting ends the entry now and cancels it, and a begin in the future becomes now |
| RecordTimer.Insort | enigma2/RecordTimer.py:580-580 | binary search and insertion keep a sorted list sorted |
| RecordTimer.RecordTimer.CleanupDaily | enigma2/timer.py:147-149 | exactly the entries stay that are disabled and repeating, or ended within the given number of days; none is added |
| RecordTimer.RecordTimer.ToTimerList | enigma2/RecordTimer.py:578-580 | filing an active entry keeps the whole invariant and adds its rank to the work to be done |
| RecordTimer.RecordTimer.ToProcessed | enigma2/timer.py:158-159 | filing an ended entry keeps the whole invariant |
| RecordTimer.RecordTimer.FileEntry | enigma2/timer.py:151-161 | an entry goes to exactly one of the two lists: to the pending one unless it has ended, or waits and is disabled or over |
| RecordTimer.RecordTimer.AddTimerEntry | enigma2/timer.py:151-163 | adding with recalculation keeps the invariant, loses no entry except old processed ones, and never leaves more work than before |
| RecordTimer.RecordTimer.CalcNextActivation | enigma2/timer.py:202-217 | afterwards nothing due remains, and the next wake-up is the first pending entry, at most 100 seconds away, and at most 5 as long as the clock is not set |
| RecordTimer.RecordTimer.ProcessActivation | enigma2/timer.py:264-268 | whatever the receiver answers, no service included, the loop ends although it is re-entered, and then nothing is left that was due when it began; only repeating entries need the outage to end at some time |
| RecordTimer.RecordTimer.StepEntry | enigma2/RecordTimer.py:566-573 | skipping or activating an entry, with its recorder |
| RecordTimer.RecordTimer.Step | enigma2/RecordTimer.py:563-575 | the entry takes its step and leaves the pending list; the work drops by its rank |
| RecordTimer.RecordTimer.Restart | enigma2/RecordTimer.py:583-586 | a repeating entry is moved to its next occurrence |
| RecordTimer.RecordTimer.Retire | enigma2/RecordTimer.py:588-591 | an entry that has ended for good is filed and old ones are dropped |
| RecordTimer.RecordTimer.DoActivate | enigma2/RecordTimer.py:563-591 | any activation keeps the invariant; one that finds a service strictly lowers the work left at this clock value, one that does not takes time |
| RecordTimer.RecordTimer.Refile | enigma2/RecordTimer.py:582-591 | an entry that has ended starts again or is put away, with no more work than its new start makes |
| RecordTimer.RecordTimer.StuckOnlyBefore | enigma2/timer.py:94-95 | an entry that records once gets stuck only before its end, a repeating one only during the outage |
| RecordTimer.RecordTimer.Tick | enigma2/timer.py:191-217 | the clock's call needs nothing but the invariant: there always is a horizon |
| RecordTimer.RecordTimer.Refresh | enigma2/RecordTimer.py:457-460 | an entry's own `timeChanged`, with a new start for one that had ended |
| RecordTimer.RecordTimer.EntryChanged | enigma2/timer.py:219-233 | the timer's `timeChanged` takes the entry out, hands it in again and ends with the invariant |
| RecordTimer.RecordTimer.CancelListed | enigma2/RecordTimer.py:960-965 | cancelling a listed entry leaves everything but its place in the order intact |
| RecordTimer.RecordTimer.RemoveEntry | enigma2/RecordTimer.py:956-979 | for every setting: the removed entry is in no list and holds no recorder and no subscription; it is found among the processed ones unless the clock has run past the days these are kept |
| RecordTimer.RecordTimer.Record | enigma2/RecordTimer.py:784-787 | a new entry joins exactly one list |
| RecordTimer.RecordTimer.Reschedule | enigma2/lib/python/Screens/TimerEdit.py:284-284 | times, repetition, disabling, extension and kind may be edited while an entry is listed, within the rule for its kind; the invariant is restored |
| RecordTimer.RecordTimer.SetExtension | enigma2/lib/python/Screens/InfoBarGenerics.py:2079-2079 | switching the automatic extension of a listed entry keeps the invariant without `timeChanged` |
| RecordTimer.RecordTimer.StopOccurrence | enigma2/lib/python/Screens/TimerEdit.py:109-114 | a running repeating entry that is not due is moved on while it is listed and then activated; the invariant is kept |
| RecordTimer.RecordTimer.StopAndDisable | enigma2/lib/python/Screens/TimerEdit.py:109-117 | the same with `timeChanged`, with the coming occurrences disabled or not |
| RecordTimer.RecordTimer.Perform | enigma2/RecordTimer.py:772-979 | one command - add, remove, edit, extend, stop, or the clock's call - keeps the invariant; new entries are known from then on |
| RecordTimer.RecordTimer.Run | enigma2/RecordTimer.py:200-500 | over any run, with entries added, removed, edited within the rule for their kind, and stopped, and with activations that find no service, every entry ever seen has a recorder and one subscription if and only if it records and is prepared or running, and no recorder is in use by anything else |
| RecordTimer.RanTwice | enigma2/timer.py:264-268 | what one run promises about the entries that stay listed, two runs promise |
| RecordTimer.RanAround | enigma2/RecordTimer.py:563-592 | an activation keeps every other entry in one of the lists unless it is dropped as old |
| RecordTimer.WorkOfInsert | enigma2/timer.py:161-161 | work to be done grows by exactly the rank of what is inserted |
| RecordTimer.WorkOfRemove | enigma2/RecordTimer.py:575-575 | and shrinks by exactly the rank of what is removed |
| HitCache.RefreshKeeps | oscam/oscam_8249/module-cacheex.c:668-682 | refreshing an entry and moving it to the front keeps the list ordered by time and free of two fresh matching entries |
| HitCache.InsertKeeps | oscam/oscam_8249/module-cacheex.c:651-665 | so does a new entry that no fresh one matches |
| HitCache.PrefixKeeps | oscam/oscam_8249/module-cacheex.c:741-751 | cutting the list keeps both, and what is cut is no newer than what was first cut |
| HitCache.MatchesIff | oscam/oscam_8249/module-cacheex.c:703-707 | two keys of known lengths match if they are equal, others if all but the length is |
| HitCache.Cache.Check | oscam/oscam_8249/module-cacheex.c:689-726 | the search that stops at the first stale entry answers like a full scan, and its final check never fires |
| HitCache.Cache.AnswersIff | oscam/oscam_8249/module-cacheex.c:697-714 | an entry answers for its own key up to the maximum time after its last refresh, and where groups count, to those that share one with it |
| HitCache.Cache.PushFront | oscam/oscam_8249/module-cacheex.c:659-664 | a new node in front of the doubly linked list, which stays well formed, and the counter |
| HitCache.Cache.MoveToFront | oscam/oscam_8249/module-cacheex.c:671-682 | relinking a node to the front keeps the list well formed and the order of the others |
| HitCache.Cache.Insert | oscam/oscam_8249/module-cacheex.c:651-665 | a new entry in front, with the whole invariant |
| HitCache.Cache.Refresh | oscam/oscam_8249/module-cacheex.c:666-684 | an entry refreshed and moved, with the whole invariant |
| HitCache.Cache.Add | oscam/oscam_8249/module-cacheex.c:649-685 | the entry that answers for the request is refreshed, or a new one is put in front; everything else stays |
| HitCache.Cache.Cleanup | oscam/oscam_8249/module-cacheex.c:728-753 | exactly the entries that are young enough and among the first `max_cache_count` remain, in order, and the counter is exact |
| HitCache.Cache.CutBehind | oscam/oscam_8249/module-cacheex.c:745-750 | unlinking a tail leaves a well formed list |
| HitCache.Cache.ValidLater | oscam/oscam_8249/module-cacheex.c:689-700 | the invariant holds on as time passes |
| Propagation.OfferIsGood | oscam/oscam_8249/module-cccshare.c:242-285 | a card that is sent keeps a simple path and pays for the hop with a reshare |
| Propagation.AcceptIsGood | oscam/oscam_8249/module-cccam.c:2280-2345 | a card that is accepted has as many distinct nodes as hops, none of them the holder |
| Propagation.OfferIff | oscam/oscam_8249/module-cccshare.c:242-285 | exactly when a card is sent, and with which reshare: one less for a remote card, capped by the limit for the client |
| Propagation.AcceptIff | oscam/oscam_8249/module-cccam.c:2280-2345 | exactly when a card is taken, with one hop more |
| Propagation.StepKeepsGood | oscam/oscam_8249/module-cccshare.c:260-283 | every step of the network keeps this for all cards and packets |
| Propagation.ReachableIsGood | oscam/oscam_8249/module-cccshare.c:420-440 | so does every run, whatever the settings of the servers are |
| Propagation.PropagationIsBounded | oscam/oscam_8249/module-cccshare.c:223-237 | in every reachable network a held card came along a simple path of exactly `hop` links, hop and reshare never exceed the origin's reshare plus one, and hops stay below the number of nodes |
| Propagation.HopsStayWithin | oscam/oscam_8249/module-cccshare.c:428-430 | in every run no card gets further than one hop beyond the hop limits of the senders, or of the receivers |
| Propagation.CardTravels | oscam/oscam_8249/module-cccshare.c:223-285 | and the bounds are reached: along every path of linked, distinct nodes a card gets as far as its reshare allows |
| Gossip.StepKeepsGood | oscam/oscam_8249/module-cacheex.c:140-196 | every step keeps node lists distinct, without the receiver, within the sender's limit |
| Gossip.TakeKeepsGood | oscam/oscam_8249/module-cccam.c:2075-2157 | taking a push in keeps node lists distinct and without the receiver |
| Gossip.SendKeepsGood | oscam/oscam_8249/module-cccam.c:1956-2070 | sending one after the check of the node list and the limit for this neighbour |
| Gossip.FoundIsFinal | oscam/oscam_8249/module-cacheex.c:372-412 | a found entry is changed by nothing but a better answer of the node's own |
| Gossip.StepLowersPotential | oscam/oscam_8249/module-cacheex.c:372-412 | every step uses up potential |
| Gossip.GossipDiesOut | oscam/oscam_8249/module-cacheex.c:140-196 | no run, in whatever order things happen, is longer than its initial potential |
| Gossip.GossipIsSafe | oscam/oscam_8249/module-cccam.c:1956-1993 | over whole runs the lists in flight stay good and a found entry stays as it is |
| Gossip.InitialIsGood | oscam/oscam_8249/module-cacheex.c:140-196 | the network in which nobody knows anything is good |
| Gossip.PushIsTaken | oscam/oscam_8249/module-cacheex.c:372-412 | a found push within the limit is taken by a node that has no entry or none that is found: code 3, the node list of the push if there was none, and a job for every neighbour but the sender; no job if the request was given up and its client still waits |
| Gossip.PushIsDropped | oscam/oscam_8249/module-cccam.c:2089-2130 | a push that is too long or not found changes nothing |
| Gossip.AnswerIsPushed | oscam/oscam_8249/oscam-ecm.c:745-840 | a node's own answer: the new code, and a job for every neighbour if it is found and the request was open |
| Gossip.JobSends | oscam/oscam_8249/module-cccam.c:1956-2070 | what a job puts on the wire, and when |
| Gossip.HandedOnIff | oscam/oscam_8249/oscam-ecm.c:745-840 | a step by which an entry becomes found queues jobs if and only if it is in time: an answer to a request that was given up only improves the entry |
| Gossip.GossipSpreads | oscam/oscam_8249/module-cacheex.c:140-196 | what the exchange is for, over all runs without losses: when nothing is queued or on the wire, every neighbour of a node that found its answer in time has found it, unless it is on the list or the list has reached a limit of the two |
| Gossip.LateIsSilent | oscam/oscam_8249/oscam-ecm.c:745-772 | the other half, over all runs: a node that finds its answer too late never has anything queued or on the wire |
| Gossip.OnePush | oscam/oscam_8249/module-cacheex.c:140-196 | the least run, step by step |
| Gossip.LateAnswerStays | oscam/oscam_8249/oscam-ecm.c:745-772 | a run in which an answer comes after the request has timed out, and the neighbour never hears of it |
| ShareList.FindFrom | oscam/oscam_8249/module-cccshare.c:852-866 | the first old card that may be taken over, none before it qualifying |
| ShareList.ReportSplits | oscam/oscam_8249/module-cccshare.c:882-894 | one bucket: the old ids are split, without overlap, into those handed on and those left over, and new cards keep what they are |
| ShareList.ReportsSplit | oscam/oscam_8249/module-cccshare.c:1184-1204 | the same for the whole list |
| ShareList.RemovalsLeaveReported | oscam/oscam_8249/module-cccshare.c:295-316 | after the removals a client keeps exactly what was handed on |
| ShareList.AssignDistinct | oscam/oscam_8249/module-cccshare.c:273-274 | ids given on sending stay distinct and below the counter |
| ShareList.AssignEach | oscam/oscam_8249/module-cccshare.c:273-274 | a card changes nothing but its id, and that only if it is sent without one |
| ShareList.AnnounceAdds | oscam/oscam_8249/module-cccam.c:2327-2344 | announced cards that are new in id and looks are all added |
| ShareList.UpdateKeepsSound | oscam/oscam_8249/module-cccshare.c:1178-1213 | a refresh with any list: ids stay distinct, and a connected client has only cards that the server has, no two of which look the same |
| ShareList.RunKeepsSound | oscam/oscam_8249/module-cccshare.c:1178-1239 | over any run of refreshes, clients coming and going, this stays so |
| ShareList.ReplicaIsSound | oscam/oscam_8249/module-cccshare.c:1178-1239 | from an empty server on, whatever the lists are, a connected client's cards are the server's, under the server's ids |
| ShareList.OldIsKept | oscam/oscam_8249/module-cccam.c:2327-2344 | a card with an old id that a client has after a refresh it had before: what it has thrown away is never announced to it again |
| ShareList.UpdateReaches | oscam/oscam_8249/module-cccshare.c:1178-1213 | a client that has all cards handed on gets the whole new list, if no two of its cards look the same |
| ShareList.UpdateKeepsGood | oscam/oscam_8249/module-cccshare.c:1178-1213 | a refresh keeps a client that has the whole list at the whole list, if no two cards of the new one look the same |
| ShareList.SendAllKeepsSound | oscam/oscam_8249/module-cccshare.c:1221-1239 | reporting the list to anybody keeps every id, leaves no card that was sent without one, and changes nothing while a client is connected |
| ShareList.ConnectKeepsGood | oscam/oscam_8249/module-cccshare.c:1221-1239 | a client that connects is sent exactly the list |
| ShareList.RunKeepsGood | oscam/oscam_8249/module-cccshare.c:1178-1239 | so does any run whose lists are of this kind |
| ShareList.ReplicaIsExact | oscam/oscam_8249/module-cccshare.c:1178-1239 | from an empty server on, with lists in which no two cards look the same, a connected client holds exactly the ids of the server's list |
| ShareList.UpdateExactIff | oscam/oscam_8249/module-cccam.c:2327-2336 | from every sound state: a refresh reaches a client completely if and only if no two cards of the new list look the same to it and it has every card that is handed on from the old one |
| ShareList.UpdateHandsOn | oscam/oscam_8249/module-cccshare.c:852-866 | an old card whose key is in the new list, keys being pairwise different, hands on its id and timeout, unless it is a local one that has timed out |
| ShareList.CardIsNew | oscam/oscam_8249/module-cccshare.c:882-894 | a card whose key no old card had is new and gets an id of its own |
| ShareList.TimedOutIsRetired | oscam/oscam_8249/module-cccshare.c:857-862 | the id of an old local card that has timed out is in no card of the new list |
| ShareList.LeftOverIff | oscam/oscam_8249/module-cccshare.c:882-894 | which old cards are left over |
| ShareList.UnchangedListStays | oscam/oscam_8249/module-cccshare.c:1178-1213 | a refresh with the cards that are there changes no id, no timeout, nothing at a connected client, and uses up no id |
| ShareList.AnnouncedIff | oscam/oscam_8249/module-cccam.c:2327-2344 | a client that is told of a card has it then, unless it had one of that id or of those looks |
| ShareList.IdsInOrder | oscam/oscam_8249/module-cccshare.c:273-274 | new cards get ids one after the other, in the order of the list |
| ShareList.IdsStay | oscam/oscam_8249/module-cccshare.c:273-274 | a card that has an id keeps it when it is sent |
| ShareList.BucketOfCaid | oscam/oscam_8249/module-cccshare.c:27-33 | the bucket of a CAID is the low five bits of its high byte |
| ShareList.BucketSearchAgrees | oscam/oscam_8249/module-cccshare.c:27-33 | searching the bucket of the CAID finds what searching all cards would find |
| ShareList.UpdateKeepsPlaced | oscam/oscam_8249/module-cccshare.c:1184-1204 | no card changes its bucket |
| ShareServer.Client.CardRemoved | oscam/oscam_8249/module-cccam.c:1864-1897 | every card with the id goes, and no other |
| ShareServer.Client.NewCard | oscam/oscam_8249/module-cccam.c:2327-2344 | a card is added unless one with its id or its looks is there |
| ShareServer.CardServer.FindReportedCard | oscam/oscam_8249/module-cccshare.c:852-866 | the first reusable card of the bucket is taken out and hands on id and timeout |
| ShareServer.CardServer.ReportBucket | oscam/oscam_8249/module-cccshare.c:1186-1199 | a bucket of the new list against the old one |
| ShareServer.CardServer.SendRemoved | oscam/oscam_8249/module-cccshare.c:295-316 | the calls for removal and what the client has afterwards |
| ShareServer.CardServer.SendCard | oscam/oscam_8249/module-cccshare.c:242-293 | a card gets an id if it has none, and the client is told |
| ShareServer.CardServer.SendBucket | oscam/oscam_8249/module-cccshare.c:1206-1211 | the new cards of a bucket, with ids in order |
| ShareServer.CardServer.SendBuckets | oscam/oscam_8249/module-cccshare.c:1225-1234 | the cards of all buckets, with ids in order |
| ShareServer.CardServer.ReportCards | oscam/oscam_8249/module-cccshare.c:1221-1239 | a client that connects, on objects |
| ShareServer.CardServer.ReportAll | oscam/oscam_8249/module-cccshare.c:1184-1204 | the report phase over all buckets, with the removals |
| ShareServer.CardServer.UpdateCardList | oscam/oscam_8249/module-cccshare.c:1178-1213 | the whole refresh on server and client objects does what the specification says |
| CardCodec.RoundTrip | oscam/oscam_8249/module-cccshare.c:121-239 | whatever fits into a message is read back field by field: ids, CAID, hop, reshare, serial, providers, the first good and bad services up to the limit, the path and the own node |
| CardCodec.ProvidersArriveIff | oscam/oscam_8249/module-cccam.c:1805-1819 | providers arrive as sent if and only if each id fits into three bytes and none is the marker of CAID 17xx |
| CardCodec.Lengths | oscam/oscam_8249/module-cccshare.c:121-239 | the length of a message, and that none that fits can overflow one of its counters |
| CardCodec.DecodeParts | oscam/oscam_8249/module-cccam.c:1769-1862 | reading any message built of parts gives the parts |
| CardCodec.NumberOfBigEndian | oscam/oscam_8249/module-cccshare.c:123-132 | a number written in bytes and read again is the number modulo the width |
| CardCodec.BytesOfNumber | oscam/oscam_8249/module-cccshare.c:123-132 | numbers of two, three and four bytes have the most significant one first |
| CardCodec.MessageBytes | oscam/oscam_8249/module-cccshare.c:121-239 | where each fixed field and each counter of a message is, with and without service lists, and its length |
| CardCodec.EntryBytes | oscam/oscam_8249/module-cccshare.c:138-195 | where provider i and service i are, and their bytes |
| CardCodec.LaterEntryBytes | oscam/oscam_8249/module-cccshare.c:170-237 | the same for refused service i and for node i of the path |
| CardCodec.MarkerIsPosition | oscam/oscam_8249/module-cccam.c:1805-1819 | for CAID 17xx a provider with the marker arrives with its position as id |
| CardCodec.RefusedIff | oscam/oscam_8249/module-cccshare.c:170-195 | a service is refused exactly if it stands in a refusing table of the CAID |
| CardCodec.WriteMore | oscam/oscam_8249/module-cccshare.c:140-152 | entries are put one behind the other and counted in the message, behind those that are there, up to a limit |
| CardCodec.WriteRefused | oscam/oscam_8249/module-cccshare.c:170-195 | for a card bound to a service table: the services of all tables that refuse its CAID, table by table, up to the limit of 240 |
| CardCodec.WriteHead | oscam/oscam_8249/module-cccshare.c:122-136 | the fixed part of a cleared message |
| CardCodec.WritePath | oscam/oscam_8249/module-cccshare.c:223-237 | the node list, the own node and their counter |
| CardCodec.WriteCard | oscam/oscam_8249/module-cccshare.c:121-239 | the message in the buffer, zeros behind it, and the length returned, for cards with services of their own and for cards bound to a service table |
| CardCodec.ReadCard | oscam/oscam_8249/module-cccam.c:1769-1862 | the card read from a buffer, for all contents; nothing if the counters lead out of it |
| CardCodec.ReadsInsideIff | oscam/oscam_8249/module-cccam.c:1793-1860 | reading stays inside the buffer if and only if the four counters do not lead out of it |
| CardCodec.FullCountersLeadOut | oscam/oscam_8249/module-cccam.c:1793-1851 | full counters lead out of every buffer of up to 2828 bytes, the program's included |
| NanoSort.UpToIsStableSort | oscam/oscam_8249/module-dvbapi.c:535-557 | tags in order, and for every tag exactly the blocks of the source in their order |
| NanoSort.SortedIsPermutation | oscam/oscam_8249/module-dvbapi.c:535-557 | no block is lost, added or changed |
| NanoSort.SortedByFirstByte | oscam/oscam_8249/module-dvbapi.c:540-552 | the order is that of the first bytes, and the second byte of a block is the number of bytes behind it |
| NanoSort.BlocksOfFlatten | oscam/oscam_8249/module-dvbapi.c:540-552 | blocks written out are read back as they were |
| NanoSort.Pass | oscam/oscam_8249/module-dvbapi.c:539-553 | one pass appends the blocks of one tag and finds the next tag, or reports that they cannot fit |
| NanoSort.SortNanos | oscam/oscam_8249/module-dvbapi.c:535-557 | blocks that end exactly at the length come out sorted; anything else is zeroed, so the sanity check is unreachable on well formed input |
| NanoSort.ResultParses | oscam/oscam_8249/module-dvbapi.c:535-557 | parsed again, the result is a stable, sorted permutation of the input blocks |
| PidTrial.Pick | oscam/oscam_8249/module-dvbapi.c:1686-1703 | the waiting PID of highest priority, the first of those |
| PidTrial.OrderIsRight | oscam/oscam_8249/module-dvbapi.c:1686-1703 | a round tries exactly the PIDs of priority 0 up to the maximum, each once, in falling priority and table order |
| PidTrial.OneRound | oscam/oscam_8249/module-dvbapi.c:1686-1734 | as many calls as there are such PIDs try them in this order |
| PidTrial.TriedIsMarked | oscam/oscam_8249/module-dvbapi.c:1705-1734 | a call that tries a PID marks it alone and makes it the current one; one that gives up leaves the current one |
| PidTrial.NextRound | oscam/oscam_8249/module-dvbapi.c:1705-1720 | the call after a round starts the next one |
| PidTrial.ThreeRounds | oscam/oscam_8249/module-dvbapi.c:1671-1734 | from a fresh start: three equal rounds and then nothing but giving up, for any number of calls |
| PidTrial.Demux.Highest | oscam/oscam_8249/module-dvbapi.c:1690-1703 | the nested loops find the pick |
| PidTrial.Demux.TryNextCaid | oscam/oscam_8249/module-dvbapi.c:1671-1734 | one call on the demuxer does one step of this |
| PidTrial.GetDescIndex | oscam/oscam_8249/module-dvbapi.c:833-850 | the search ends with the least positive index no PID has |
| CData.InsideEscaped | enigma2/main/xmlgenerator.cpp:88-107 | a reader inside a section gets the text back from the escaped text, for every text |
| CData.EscapeRoundTrip | enigma2/main/xmlgenerator.cpp:88-107 | the escaped text in a section is read back as the text |
| CData.EscapeOnce | enigma2/main/xmlgenerator.cpp:88-107 | a text with one "]]>" is written as two sections that part before its last character |
| CData.WrittenText | enigma2/main/xmlgenerator.cpp:155-166 | what is written between tags reads back as a line feed and the text up to its first NUL |
| CData.WholeTextWrittenIff | enigma2/main/xmlgenerator.cpp:162-162 | the whole text arrives behind the line feed if and only if it has no NUL |
| CData.CutOfEscaped | enigma2/main/xmlgenerator.cpp:162-162 | cutting the escaped text at its first NUL is escaping the cut text |
| CData.CDataFromString | enigma2/main/xmlgenerator.cpp:155-166 | the method writes exactly this |
| CData.Find | enigma2/main/xmlgenerator.cpp:88-107 | the first occurrence from a position on |
| CData.CDataEscape | enigma2/main/xmlgenerator.cpp:88-107 | the loop replaces every occurrence from left to right |
| LogBuffer.Ring.Add | enigma2/main/bsod.cpp:28-46 | after any writes of any length the ring stands for everything written |
| LogBuffer.Ring.CopyIn | enigma2/main/bsod.cpp:32-45 | one stretch up to the end of the ring |
| LogBuffer.Ring.Get | enigma2/main/bsod.cpp:48-63 | the last bytes written, as many as fit, without leading NULs; unwrapped, full and wrapped |
| LogBuffer.WindowMoves | enigma2/main/bsod.cpp:38-44 | overwriting from the head and moving it drops the oldest bytes and appends the new ones |
| LogBuffer.NulFree | enigma2/main/bsod.cpp:48-63 | without NUL bytes exactly the last bytes come back |
| LogBuffer.OnlyZerosDropped | enigma2/main/bsod.cpp:48-57 | what the scan leaves out are the leading zeros, all of them |
| LogBuffer.LeadingNulLost | enigma2/main/bsod.cpp:50-57 | the last bytes come back unchanged if and only if the first of them is not NUL |
| SkinLayout.PercentageFitsIff | enigma2/skin.py:115-139 | a plain percentage of a positive extent stays within it exactly below one pixel above 100 percent |
| SkinLayout.PercentageFits | enigma2/skin.py:132-133 | percentages up to 100 never exceed the extent |
| SkinLayout.CentredIff | enigma2/skin.py:117-118 | a centred widget has equal margins up to one pixel; one that is too large starts at 0 |
| SkinLayout.CoordinateIs | enigma2/skin.py:119-141 | coordinates in plain numbers: pixels or hundredths, rounded down, from the start, the end or the middle |
| SkinLayout.PlaceSplitsIff | enigma2/skin.py:663-690 | docking splits a context into widget and rest, pixel by pixel, if and only if the extent asked for fits |
| SkinLayout.PlaceSplits | enigma2/skin.py:663-690 | and then the areas add up |
| SkinLayout.DockedAtItsSide | enigma2/skin.py:663-690 | a docked widget touches its own side of the context over its whole length, and the rest touches the opposite one |
| SkinLayout.KnownLayout | enigma2/skin.py:649-695 | a screen with a title, a panel, half of the rest, a panel without a height and a filler, in pixels |
| SkinLayout.PiecesTile | enigma2/skin.py:649-695 | however widgets and panels are nested, each pixel of the context lies in exactly one piece and the areas add up |
| SkinLayout.PiecesAreDisjoint | enigma2/skin.py:649-695 | two pieces never overlap, and none leaves the context |
| SkinLayout.PercentagesFit | enigma2/skin.py:132-133 | a layout in percentages up to 100 fits at every depth |
| SkinLayout.SkinContext.Parse | enigma2/skin.py:663-695 | the rectangle handed out, the one kept, and the exception for "*" |
| SkinLayout.SkinContext.ProcessScreen | enigma2/skin.py:893-902 | widgets in order, panels with the context they are given; a panel without an extent is skipped, another widget without one ends the screen |
| SkinLayout.SkinContext.ProcessPanel | enigma2/skin.py:904-922 | a panel is laid out in a context of its own |

## Left out

- RecordTimer.RecordTimer.ProcessActivation: for repeating entries an outage of all services is finite, of any length; `TimerValues.FullDayStuckAgain` is why.
- RecordTimer.RecordTimer.CalcNextActivation: leaves out the branch for a clock that went back.
- RecordTimer.RecordTimer.RemoveEntry: the extension of other entries that follows a removal is left out.
- RecordTimer.RecordTimer.Reschedule: edits that a conflict keeps from being followed by `timeChanged` are left out; they leave the list out of order.
- RecordTimer.RecordTimer.Record: leaves out the conflict and double checks before it and saving after it.
- RecordTimer.Entry.SetRecordService: the list of subscribers is a multiset, so their order is not modelled.
- RecordTimer.RecordTimer.ToProcessed: says nothing about the order of the processed entries; the program sorts an entry in before it changes its state.
- TimerValues.RepeatedMeetsItsGoal: no daylight saving, so `addOneDay` adds exactly one day.
- CcSession.SessionFollows: the reader's timeout for a request, its limit of requests per connection and the messages that switch to extended mode are left out; a withdrawal names its card in four bytes, as the server sends it. Refusals are read as in a build with cache exchange, where the sleep message is none.
- CcConnection.Connection.NoteRequest: the bytes of a request go the other way and are messages of `DeliverToServer`; when one is sent is a parameter.
- CcConnection.Connection.HandleCw: a reply of sixteen bytes without the optional second cipher (`cc_crypt_cmd0c` in its default mode) and without the retry on empty words.
- CcConnection.Connection.SendDcw: found words in non-extended mode; the NOK replies and extended mode are left out.
- CcConnection.Connection.Take: errors and timeouts while waiting for the socket are left out; what has not arrived counts as the end of the connection.
- CcHandshake.LoginAcceptedIff: for a password of another length than the account's only `CheckSucceedsIff` says what is accepted, byte by byte.
- CcHandshake.RightAccountAcceptedIff: its condition replays the checks of the accounts before; `SecondAccountIff` is the closed form for one such account with a password of the same length.
- CcHandshake.ReceiveLogin: up to the account check; blocked, duplicate and disabled accounts are left out.
- Gbox.EncryptWindow: the two nested loops of `gbox_encrypt8` are one loop of thirty-two steps, as in `gbox_encryptA`.
- Propagation.OfferIsGood: cards of a user's services, which are sent with the client's own reshare value, are left out.
- Propagation.PropagationIsBounded: cards start with hop 0, reshare is not ignored, and cards are not merged (`cc_minimize_cards` off).
- Gossip.PushIsTaken: the client of an open request gets its answer in the step that takes the push; in the program that is a job of its own, and a push that overtakes it would carry the request as open.
- Gossip.AnswerIsPushed: a request is answered by the codes of found, not found and timed out.
- Gossip.GossipIsSafe: one request; entries do not expire during a run, and filters by group, service and CAID are part of the list of neighbours.
- ShareList.ReplicaIsExact: for a client to whom every card is valid and may be reshared, while other clients may be entitled to any part; ids are unbounded, the program's counter wraps after 2^32 of them.
- ShareServer.CardServer.UpdateCardList: cards are list elements rather than shared objects, and one client stands for all; building the new list from the readers is left out.
- PidTrial.Demux.TryNextCaid: normal request mode without decode-forever; filters, fake requests and the Irdeto fields are left out.
- SkinLayout.SkinContext.Parse: docked widgets; free positions, font units and stacked contexts are left out, and coordinates are already parsed from their text.
- HitCache.Cache.Add: the waiting-time checks before the locked part are left out; groups are sets of bits.
- LogBuffer.Ring.Get: the ring's size is a parameter.
- Extended mode of CCcam, the other modes of the 0C and 05 commands, EMM handling and card rating.
- Threads and locks: the two extra cipher runs happen outside the lock of the connection and could interleave with other messages; the models take each reply and its extra run as one step.
- gbox packets, compression and checksums around the block cipher.
- Merging of cards by `MINIMIZE_CAID` and `MINIMIZE_HOPS`, and the counters of cards by hop and reshare.
- Notifications, standby and zapping, file names, XML files of timers, `isInTimer`.
- The tag stack of the XML writer, the e-mail and file writing of the crash handler, the HTTP server of `module-ghttp.c`.
- Demultiplexer configuration, capmt parsing, EMM filters and `dvbapi_resort_ecmpids`.
