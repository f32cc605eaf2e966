# Out-of-band interaction server: verification model

This project models the session store, the correlation-ID matcher and the SMTP
capture of the interaction server, and the correlation-ID encoder and lifecycle
of its client, and proves what they promise each other.

- **Session store.** `Store` gives every operation as a function on values, for
  the memory backend and for the disk backend wrapped around it.
  `MemoryStorageModel` is the same code on mutable objects, each method proved
  to do what the function says. `StoreInvariants`, `LruOrder`, `LazyExpiry` and
  `DiskRefinement` prove what holds over every run of operations, with facts on
  runs from `StoreRuns`. `SessionView` is one session among all the others as its
  owner sees it.
  `MemorySteps` and `MemoryInvariants` take the calls apart into the sections
  between lock operations and interleave any number of them, `MemoryLinks` with
  the linked list and index of `LruLinks`; `DiskSteps`, `DiskInvariants`,
  `DiskDelivery` and `DiskProgress` do so for the disk backend, down to single
  lock and database operations; `DiskStaleHandle` is one run of it in full.
  `RecordCodec` is the stored byte format.
- **Shared buckets.** `SharedBucketModel` proves the batch-trimmed buffer with
  relative offsets against an unbounded log with absolute cursors.
- **Matcher.** `Matcher` says what an occurrence is, `Scanner` and `FrontEnds`
  are the scanning loops and the three front ends, `MatcherTheorems` states
  their promises by positions of the input text, `Names` is how the server reads
  ids and names, `Capture` hands what matched to the store, and `CaptureStorage`
  says what the store keeps of it.
- **Client.** `ClientId` is the bit-level encoder, `Agreement` connects a
  client's payload domain with the server's matching, `Lifecycle` is polling,
  keep-alive and Close, and `EndToEnd` joins registration, matching, storing
  and polling.
- **SMTP.** `SmtpEnvelope`, `SmtpSessionModel` and `SmtpCaptureModel` go from
  bytes on the connection to stored records.

Where the code is weaker than its comments suggest, the model follows the code:
an append to an expired session that is still in the map revives it under
sliding expiry (`LazyExpiry.AppendInvisibleIff`, `LazyExpiry.RevivalRun`); a
disk handle drains by correlation ID, so that it can drain a successor's records
although the comment on the handle speaks of one session
(`DiskStaleHandle.StaleHandleRun`); a payload of 2^32 bytes or more would not
come back (`RecordCodec.RoundTrip`); on a failed encryption the memory backend
has already touched the session while the disk backend has not
(`DiskRefinement.AppendRelatedIff`, `DiskRefinement.FailedEncryptionRun`); an
append answers the same whether or not it stored anything, so that a message can
be counted as matched of which nothing was stored
(`CaptureStorage.CounterExactIff`, `EndToEnd.MiscountedMessage`); body lines that
arrive in one read with DATA are still taken for envelope lines
(`SmtpSessionModel.ReadAhead`).

`dafny verify dfyconfig.toml` checks the whole project.

## Model

| member | source | states |
|---|---|---|
| RecordCodec.ParseRecords | interactsh-srv/oobsrv/storage.go:675-685 | The decoding loop stays in bounds, terminates and reads exactly the whole records from the front, stopping at the first length that is incomplete or points past the end. |
| RecordCodec.RoundTrip | interactsh-srv/oobsrv/storage.go:633-635 | Decoding the concatenated records returns the appended payloads if and only if every payload is shorter than 2^32 bytes. |
| RecordCodec.ParseRecord | interactsh-srv/oobsrv/storage.go:633-635 | What an oversized payload turns into: it is cut to its length modulo 2^32 and its remaining bytes are read as further records. |
| RecordCodec.ParseLongestPrefix | interactsh-srv/oobsrv/storage.go:675-685 | On arbitrary bytes the output re-encodes to a prefix of the data, and no list of representable payloads encodes to a longer prefix. |
| RecordCodec.Truncation | interactsh-srv/oobsrv/storage.go:675-685 | A truncated value yields exactly the records that lie whole before the cut, in order. |
| SharedBucketModel.SharedBucket.constructor | interactsh-srv/oobsrv/storage.go:487-495 | A new bucket represents the empty log. |
| SharedBucketModel.SharedBucket.Append | interactsh-srv/oobsrv/storage.go:499-513 | Appending, with the batch trim and the shift of every offset, extends the unbounded log by the entry and keeps the buffer below twice maxBuffer. |
| SharedBucketModel.SharedBucket.ShiftOffsets | interactsh-srv/oobsrv/storage.go:508-511 | Every offset, and only offsets, moves back by maxBuffer but not below zero. |
| SharedBucketModel.SharedBucket.ReadFrom | interactsh-srv/oobsrv/storage.go:516-536 | A read returns exactly the still-retained entries appended since the consumer's last read, leaves the buffer alone, and advances the consumer's absolute cursor. |
| SharedBucketModel.SharedBucket.CleanupStaleLocked | interactsh-srv/oobsrv/storage.go:539-550 | At most once a minute, consumers unseen for longer than the TTL are forgotten and all others keep their cursor. |
| SharedBucketModel.RunWf | interactsh-srv/oobsrv/storage.go:499-550 | In every reachable state at least the newest min(appended, maxBuffer) entries are retained, fewer than twice maxBuffer are held, and trimming has copied no more elements than were appended. |
| SharedBucketModel.DeliveredExactlyOnce | interactsh-srv/oobsrv/storage.go:516-536 | All a consumer was given over a run is precisely the log between its first and last cursor, each entry once and in order, if and only if nothing it had yet to read was trimmed away. |
| SharedBucketModel.PacedConsumerMissesNothing | interactsh-srv/oobsrv/storage.go:499-550 | In terms of the calls alone: a consumer that reads at least every maxBuffer appends and at least every TTL is given, over any run, the whole stretch of the log between its first and last cursor, each entry once and in order. |
| MemoryStorageModel.Session.GetAndClearInteractions | interactsh-srv/oobsrv/storage.go:288-294 | A drain hands out the stored interactions and leaves none. |
| MemoryStorageModel.MemoryStorage.constructor | interactsh-srv/oobsrv/storage.go:122-137 | A new store is valid and empty. |
| MemoryStorageModel.MemoryStorage.Detach | interactsh-srv/oobsrv/storage.go:196-203 | A session leaves the map, the list and the index together; map keys, index keys and list entries stay the same ids, every index entry leads to an element holding its own id. |
| MemoryStorageModel.MemoryStorage.DeleteStored | interactsh-srv/oobsrv/storage.go:584-597 | Both hooks delete the id's key, and nothing else, when there is a database. |
| MemoryStorageModel.MemoryStorage.RemoveLocked | interactsh-srv/oobsrv/storage.go:196-207 | Removal forgets the session and its stored records and keeps everything else, other sessions' objects included. |
| MemoryStorageModel.MemoryStorage.PromoteLRU | interactsh-srv/oobsrv/storage.go:209-213 | A promoted id moves to the back; all others keep their order; an unknown id changes nothing. |
| MemoryStorageModel.MemoryStorage.FindVictim | interactsh-srv/oobsrv/storage.go:163-188 | The probe loop computes the victim the specification names over the first eight elements. |
| MemoryStorageModel.MemoryStorage.EvictLRU | interactsh-srv/oobsrv/storage.go:163-193 | Eviction removes that victim and counts it, or does nothing when the loop found none. |
| MemoryStorageModel.MemoryStorage.Insert | interactsh-srv/oobsrv/storage.go:263-275 | A new session enters the map, the back of the list and the index after its key was deleted from the database, and is counted. |
| MemoryStorageModel.MemoryStorage.Register | interactsh-srv/oobsrv/storage.go:222-278 | Registration does what the specification says in every branch: keep-alive, secret mismatch, expired session replaced, eviction at capacity, key failure. |
| MemoryStorageModel.MemoryStorage.GetSession | interactsh-srv/oobsrv/storage.go:306-363 | Session lookup validates, counts, touches and promotes; a session that looks expired under the read lock is looked at again under the write lock, at a second instant, which then decides; a returned object is the registered one. |
| MemoryStorageModel.MemoryStorage.GetUnderWriteLock | interactsh-srv/oobsrv/storage.go:333-362 | The second look: whatever is registered by then is evicted if expired, and otherwise validated, promoted, counted and touched as a first look would. |
| MemoryStorageModel.MemoryStorage.Poll | interactsh-srv/oobsrv/endpoints.go:134-142 | The poll handler on the memory backend returns and clears what the session held. |
| MemoryStorageModel.MemoryStorage.AppendInteraction | interactsh-srv/oobsrv/storage.go:365-393 | An append counts, touches first, then stores the ciphertext at the end; it drops the interaction of an unknown id or of a failed encryption. |
| MemoryStorageModel.MemoryStorage.Delete | interactsh-srv/oobsrv/storage.go:395-412 | Deletion checks the secret, removes the session and counts a hit or a miss. |
| MemoryStorageModel.MemoryStorage.HasCorrelationID | interactsh-srv/oobsrv/storage.go:418-444 | The answer is whether the id is registered and unexpired at the instant of the last look taken; a session expired at both looks is evicted. |
| MemoryStorageModel.MemoryStorage.HasUnderWriteLock | interactsh-srv/oobsrv/storage.go:433-443 | The second look: evicts what is expired by then and otherwise answers whether the id is registered. |
| MemoryStorageModel.MemoryStorage.GetResponse | interactsh-srv/oobsrv/storage.go:446-459 | The stored response of an unexpired session, otherwise none. |
| MemoryStorageModel.DiskStorage.AppendInteraction | interactsh-srv/oobsrv/storage.go:602-642 | The disk append touches only after encryption succeeded and appends one record to the key's bytes. |
| MemoryStorageModel.DiskStorage.DrainHandle | interactsh-srv/oobsrv/storage.go:655-687 | The disk drain deletes the key and returns the records its bytes decode to. |
| MemoryStorageModel.DiskStorage.Poll | interactsh-srv/oobsrv/endpoints.go:134-142 | The poll handler on the disk backend does what the specification of a poll says. |
| StoreInvariants.ProbeLeast | interactsh-srv/oobsrv/storage.go:165-188 | From any state of its two variables the probe loop ends with the first session of the window that has the smallest lastAccess, or with what it started from if none is smaller. |
| StoreInvariants.VictimIsLeastProbed | interactsh-srv/oobsrv/storage.go:163-193 | When no session looks like "none", a store that is not empty always yields a victim: the first least recently used of the probed entries. |
| StoreInvariants.StepOk | interactsh-srv/oobsrv/storage.go:222-278 | Every operation keeps: map and list hold the same ids without duplicates, database keys are registered, sessions do not exceed the capacity, created = live + evicted + deleted. |
| StoreInvariants.RunOk | interactsh-srv/oobsrv/storage.go:163-278 | The same in every state any sequence of operations reaches. |
| StoreInvariants.MakesRoomIff | interactsh-srv/oobsrv/storage.go:163-193 | A full store makes room if and only if the session it would evict, the first least recently used one of the probe window, is not registered under the empty id, by which the probe loop marks that there is no victim. |
| StoreInvariants.CapacityKeptIff | interactsh-srv/oobsrv/storage.go:222-278 | Registering a new id in a full store keeps the capacity if and only if that same condition holds. |
| StoreInvariants.EmptyIdDefeatsCapacity | interactsh-srv/oobsrv/storage.go:189-192 | Two registrations from the empty store, the first under the empty id, exceed a capacity of one. |
| LruOrder.RunHist | interactsh-srv/oobsrv/storage.go:209-213 | Under sliding expiry the list is sorted by last promotion, and lastAccess equals the promotion time unless something was appended since. |
| LruOrder.ExactIffInWindow | interactsh-srv/oobsrv/storage.go:163-193 | The evicted session is a least recently used one of the whole store if and only if such a session lies among the first eight list entries. |
| LruOrder.EvictionIsExact | interactsh-srv/oobsrv/storage.go:163-193 | In every state a run under sliding expiry reaches: if one of the first eight entries had no append since its last promotion, eviction removes a globally least recently used session. |
| LruOrder.InexactEviction | interactsh-srv/oobsrv/storage.go:163-193 | Otherwise it need not: nine sessions from the empty store, the first eight appended to, after which eviction removes one last used at 100 while another was last used at 8. |
| LazyExpiry.RegisterInvisibleIff | interactsh-srv/oobsrv/storage.go:222-278 | A registration answers as the eager store does, and goes unnoticed by it if and only if it does not evict a session that is still alive. |
| LazyExpiry.ExpiryInvisible | interactsh-srv/oobsrv/storage.go:143-150 | Over any run with a clock that does not go back, in which no live session is evicted and no expired one revived, every answer but Delete's is that of a store that drops each session the moment it expires, and the sessions still alive are the same. |
| LazyExpiry.ExpiryInvisibleToCallers | interactsh-srv/oobsrv/storage.go:418-444 | The same in terms of the calls alone: with fixed expiry, or with HasCorrelationID asked at the instant of every append, and with room for every registration of the run. |
| LazyExpiry.ExpiryInvisibleOnDisk | interactsh-srv/oobsrv/storage.go:602-700 | The same for the disk backend, when every encryption succeeds with a length the record format can hold. |
| LazyExpiry.DeleteAnswerIff | interactsh-srv/oobsrv/storage.go:395-412 | Delete answers as the eager store if and only if it does not meet an expired session that is still in the map. |
| LazyExpiry.RevivalRun | interactsh-srv/oobsrv/storage.go:372-378 | A run from the empty store in which an unchecked append revives an expired session, so that a poll finds what the eager store has dropped. |
| LazyExpiry.AppendInvisibleIff | interactsh-srv/oobsrv/storage.go:365-378 | An append goes unnoticed by that eager store if and only if it does not revive an expired session that is still in the map under sliding expiry. |
| DiskRefinement.StepRelated | interactsh-srv/oobsrv/storage.go:602-700 | Each operation gives the same answer on both backends and keeps sessions, list order and counters equal, interactions being held as their encoding. |
| DiskRefinement.AppendRelatedIff | interactsh-srv/oobsrv/storage.go:602-642 | An append keeps the backends in step if and only if the payload's length is representable, or on a failed encryption there was nothing to touch. |
| DiskRefinement.DiskRefinesMemory | interactsh-srv/oobsrv/storage.go:602-700 | Over any run the two backends give the same answers, polled batches included, and end with the same sessions, list order and counters. |
| DiskRefinement.BackendsAnswerAlike | interactsh-srv/oobsrv/storage.go:602-700 | From empty stores, whenever every encryption succeeds with a length the record format can hold. |
| DiskRefinement.FailedEncryptionRun | interactsh-srv/oobsrv/storage.go:614-622 | A run from the empty stores in which a failed encryption touches the session in memory only, so that a later poll tells the backends apart. |
| DiskRefinement.OversizePayloadRun | interactsh-srv/oobsrv/storage.go:633-635 | A run from the empty stores in which a payload too long for the length field comes back from memory only. |
| MemorySteps.RegisterSectionIsRegister | interactsh-srv/oobsrv/storage.go:222-278 | The write-locked section of the concurrent machine is the registration of the sequential store. |
| MemorySteps.AnswersLinearizable | interactsh-srv/oobsrv/storage.go:306-363 | Whatever runs between a call's two sections, its answer was true of the store at some instant of the call: a session was returned only if then registered, unexpired and with the presented secret; the errors and both answers of HasCorrelationID likewise. |
| MemoryInvariants.StepInv | interactsh-srv/oobsrv/storage.go:306-363 | Every step of every call keeps the ids of map and list equal, capacity, count, distinct session identities and the delivery balance of every session object, registered or removed. |
| MemoryInvariants.AlwaysInv | interactsh-srv/oobsrv/storage.go:288-444 | The same over every interleaving. |
| MemoryLinks.IndexAlways | interactsh-srv/oobsrv/storage.go:163-278 | From an empty store, in every state any interleaving reaches: map, list and index hold the same ids, no element is in the list twice, every index entry leads to the list element that carries its id, capacity respected, created = live + evicted + deleted. |
| MemoryLinks.StepHolds | interactsh-srv/oobsrv/storage.go:196-213 | Every section keeps list and index leading to each other and in the order of the ids. |
| MemoryInvariants.DeliveredInOrder | interactsh-srv/oobsrv/storage.go:288-294 | Under every interleaving of appenders and drainers, for any session at any moment: the batches drained so far followed by what it holds are the interactions appended to it, in order. |
| DiskInvariants.StepInv | interactsh-srv/oobsrv/storage.go:584-673 | Every lock or database step keeps the two-level lock discipline, key ownership and the balance of every untainted session. |
| DiskInvariants.AlwaysInv | interactsh-srv/oobsrv/storage.go:584-673 | The same over every interleaving, stale handles included. |
| DiskProgress.NeverStuck | interactsh-srv/oobsrv/storage.go:584-673 | In every state any interleaving reaches, a thread inside an operation can take its next step or waits for a session's lock whose holder can; either step brings its thread nearer the end. |
| DiskProgress.HolderFinishes | interactsh-srv/oobsrv/storage.go:624-673 | The holder of a session's lock gives it back after at most as many steps of its own as it has left, whatever the others wait for. |
| DiskDelivery.RecordsBelongToTheirSession | interactsh-srv/oobsrv/storage.go:584-642 | Whenever no writer is inside m.mu, database keys are registered ids and every record under a key was appended to the session registered there now, never to a predecessor. |
| DiskDelivery.RecordsAreBytes | interactsh-srv/oobsrv/storage.go:633-637 | The record lists of the step system stand for the stored bytes: a put appends one encoded record, and decoding gives the payloads back if and only if all of them fit. |
| DiskDelivery.DeliveredInOrder | interactsh-srv/oobsrv/storage.go:602-673 | Id by id, whatever is done under other ids: if the handles of one id are used while their session is registered, drained batches followed by what is stored equal the append order for the session registered there, and no session ever registered there delivers anything but a prefix of its appends. |
| DiskDelivery.StaleTakeBreaksIff | interactsh-srv/oobsrv/storage.go:660-673 | A drain through the handle of a predecessor breaks the registered session's delivery if and only if there is something stored to take. |
| DiskStaleHandle.StaleHandleRun | interactsh-srv/oobsrv/storage.go:660-673 | A concrete run in which the handle of a removed session drains the record of its successor. |
| Scanner.ScanLabels | interactsh-srv/oobsrv/correlation.go:41-79 | The two-tier scan with early-stop callbacks is the fold of the callbacks over the hits in scan order, stopping where a callback says so. |
| Scanner.ScanWindows | interactsh-srv/oobsrv/correlation.go:51-62 | The window loop over one label, likewise. |
| FrontEnds.MatchCorrelationID | interactsh-srv/oobsrv/correlation.go:82-100 | Its ids are the specification's list for the lower-cased input and every match carries the text before the first configured domain that fits. |
| FrontEnds.FirstMatch | interactsh-srv/oobsrv/httpapi.go:108-113 | The scan that stops at its first hit yields the head of the full match list and the label of the first hit in scan order whose id is registered, or nothing if that list is empty. |
| FrontEnds.MatchCorrelationIDEverywhere | interactsh-srv/oobsrv/correlation.go:104-144 | Splitting on five delimiters still lists exactly the registered windows of the whole text, once each in order, each with the first window that carries it. |
| FrontEnds.MatchLDAPCorrelationID | interactsh-srv/oobsrv/correlation.go:163-193 | Its ids are those of all trimmed parts in order without repetition, each credited to the first part that has it. |
| Matcher.LabelWindows | interactsh-srv/oobsrv/correlation.go:45-64 | Cutting at dots neither loses nor adds a window. |
| Matcher.FieldWindows | interactsh-srv/oobsrv/correlation.go:104-144 | Nor does cutting at any set of delimiters outside the alphanumeric alphabet. |
| MatcherTheorems.MatchSoundComplete | interactsh-srv/oobsrv/correlation.go:41-100 | An id is matched if and only if it is registered and occurs in base32 before three alphanumeric characters, or as a whole label of exact length; no id is listed twice. |
| MatcherTheorems.MatchOrder | interactsh-srv/oobsrv/correlation.go:41-100 | Of two matched ids the earlier one occurs to the left of every window that carries the later one. |
| MatcherTheorems.EverywhereIsFirstPart | interactsh-srv/oobsrv/correlation.go:41-144 | MatchCorrelationIDEverywhere's list is exactly the first part of MatchCorrelationID's on the same input; what follows are the deduplicated exact-length labels no window carried. |
| MatcherTheorems.LdapIsUnion | interactsh-srv/oobsrv/correlation.go:163-193 | The LDAP list is the union over the trimmed parts of what MatchCorrelationID finds in each. |
| ClientId.GenerateCorrelationID | oobclient/client.go:902-943 | With every index in bounds, character i below 20 is the alphabet entry of bits 5i to 5i+4 of the stamped bytes, and later ones that of the low five bits of an extra random byte. |
| ClientId.ShiftedGroup | oobclient/client.go:921-928 | The shifts and masks over two neighbouring bytes pick out five consecutive bits of the big-endian number. |
| ClientId.StaysInAlphabet | oobclient/client.go:902-943 | At any length every character is in the alphabet the server accepts. |
| ClientId.Injective | oobclient/client.go:902-943 | Two ids agree on their first twenty characters if and only if they were made from the same twelve bytes. |
| ClientId.SortsByTime | oobclient/client.go:900-915 | One id's first four characters are lexicographically smaller if and only if its ts>>12 is smaller, whatever the random bits. |
| Agreement.WindowFits | interactsh-srv/oobsrv/correlation.go:48-62 | The payload's first label is matched at its start if and only if id and nonce together are at least three characters longer than the configured length. |
| Agreement.FullIDIsFrontIff | interactsh-srv/oobsrv/correlation.go:152-159 | In any order of the domains, the full id of a text below a domain is the text's front if and only if no domain tried before it is a proper dot-suffix of it. |
| Agreement.FullIDIsFront | interactsh-srv/oobsrv/server.go:109-112 | So sorting nested domains longest first makes the full id the front for every one of them. |
| Agreement.PayloadMatchesClient | oobclient/client.go:376-386 | Every Domain() string of a registered client is matched first to the truncated id that registration, polling and deregistration use, with the full id equal to id plus nonce. |
| Agreement.DnsMatchesClient | interactsh-srv/oobsrv/dns.go:254-276 | The DNS handler, which matches only what is left of the configured domain, comes to the same id and full id. |
| Capture.Server.AppendInteraction | interactsh-srv/oobsrv/storage.go:365-393 | One call: the store becomes what the append makes of it, after whatever other clients did before; the answer is the same whether or not anything was stored. |
| Capture.Server.StoreMatchedInteractions | interactsh-srv/oobsrv/server.go:306-316 | The store becomes what appending one copy per match, with that match's ids and in match order, makes of it, other clients' operations in between included. |
| Capture.Server.CaptureWildcard | interactsh-srv/oobsrv/server.go:319-332 | With the wildcard on, the bucket of a configured domain gets the entry at its end; nothing else changes. |
| Capture.CopyAt | interactsh-srv/oobsrv/server.go:306-316 | The k-th copy carries the ids of the k-th match and the caller's content. |
| Capture.Server.CaptureInteraction | interactsh-srv/oobsrv/server.go:337-348 | For exactly the matched ids a copy is handed to the store, each once, in match order, under the id and the full id the input gives it; the bucket of the domain gets one wildcard entry when the wildcard is on; the answer tells whether anything matched. |
| Capture.CapturedAt | interactsh-srv/oobsrv/server.go:306-316 | The k-th copy handed over, read off the input: the k-th matched id, as full id the text before the first fitting domain or, when everything is scanned, the first window that carries the id, and the handler's content. |
| Capture.CopyOfSession | interactsh-srv/oobsrv/server.go:306-316 | Of the copies of one capture exactly one is for each matched id, and none for any other. |
| CaptureStorage.AppendStoresIff | interactsh-srv/oobsrv/storage.go:365-393 | An append stores something if and only if its session is registered and the encryption succeeded, and then for that session alone; it answers the same in every case, on either backend. |
| CaptureStorage.RegisteredGains | interactsh-srv/oobsrv/storage.go:365-393 | A whole capture with nobody else at the store: every registered session gains exactly its own ciphertexts, in order, those whose encryption succeeded, on either backend. |
| CaptureStorage.StoredForIff | interactsh-srv/oobsrv/storage.go:602-642 | What is stored for an id grows if and only if it is registered and one of its encryptions succeeded; an id that is not registered gains nothing. |
| CaptureStorage.SessionGains | interactsh-srv/oobsrv/storage.go:365-393 | A whole capture among any operations of other clients: a session used in time and not evicted holds afterwards what was captured for it meanwhile, which are its own copies if nobody else captures for it. |
| CaptureStorage.InteractionStored | interactsh-srv/oobsrv/server.go:337-348 | After a DNS or HTTP capture a registered session holds one more interaction, its own copy, if it is matched and the encryption succeeds, and nothing more otherwise. |
| SmtpSessionModel.TeeConn.Read | interactsh-srv/oobsrv/smtp.go:39-49 | The buffer is always the first 8192 bytes of what was read since the reset and before capturing stopped. |
| SmtpSessionModel.TeeConn.Reset | interactsh-srv/oobsrv/smtp.go:51-54 | A reset starts over with nothing captured. |
| SmtpSessionModel.ReadAll | interactsh-srv/oobsrv/smtp.go:39-49 | However the bytes are cut into reads, the buffer ends up the same. |
| SmtpEnvelope.ExtractRawPath | interactsh-srv/oobsrv/smtp.go:73-98 | The quote-aware scan stays in bounds and computes the specified path. |
| SmtpEnvelope.ExtractsExactlyThePath | interactsh-srv/oobsrv/smtp.go:73-98 | A non-empty text is extracted if and only if the parameter holds it in brackets as a path of bare characters and quoted strings, the first bracket opening it; escapes are kept verbatim. |
| SmtpSessionModel.ParseRawEnvelope | interactsh-srv/oobsrv/smtp.go:103-123 | The line loop collects the last usable MAIL path and every usable RCPT path in order. |
| SmtpSessionModel.ReadAhead | interactsh-srv/oobsrv/smtp.go:184-198 | What came in the same reads as DATA is captured too: the sender is that of the lines read ahead if they name one, and their RCPT paths follow those the client sent. |
| SmtpSessionModel.EnvelopeRoundTrip | interactsh-srv/oobsrv/smtp.go:73-122 | A transcript of MAIL and RCPT lines with non-empty quote-balanced paths among any other lines, in any chunks within the cap, gives back the path of the last MAIL and the RCPT paths in order. |
| SmtpSessionModel.LastMail | interactsh-srv/oobsrv/smtp.go:112-115 | The sender of a transcript is the path of the MAIL that no later MAIL follows. |
| SmtpSessionModel.SmtpSession.Envelope | interactsh-srv/oobsrv/smtp.go:184-198 | DATA uses the raw values as far as they were found and the parsed ones otherwise, and stops capturing. |
| SmtpSessionModel.SmtpSession.Reset | interactsh-srv/oobsrv/smtp.go:214-220 | A reset clears the parsed envelope and the captured bytes. |
| SmtpCaptureModel.Smtp.CaptureSMTPInteraction | interactsh-srv/oobsrv/smtp.go:300-359 | One recipient hands the store one record per session it matches, the body only for sessions not served before, and files one wildcard entry if its domain is new; the answer tells whether anything was handed over. |
| SmtpCaptureModel.Smtp.OnSMTPData | interactsh-srv/oobsrv/smtp.go:263-291 | One DATA handles each distinct recipient string once, in order; the store becomes what appending its records makes of it, and smtpMatched rises by one if and only if there is a record to append. |
| SmtpCaptureModel.PerSession | interactsh-srv/oobsrv/smtp.go:300-359 | For a session exactly one record per distinct recipient that matches its id is handed over, in recipient order, and only the first carries the body. |
| CaptureStorage.MessageStored | interactsh-srv/oobsrv/smtp.go:300-359 | After one DATA a registered session holds one more interaction for every distinct recipient that matches its id and whose encryption succeeds, in recipient order. |
| CaptureStorage.CounterExactIff | interactsh-srv/oobsrv/smtp.go:263-291 | smtpMatched agrees with whether anything was stored if and only if nothing matched or one of the appends found its session registered and its encryption succeeded. |
| CaptureStorage.CounterExact | interactsh-srv/oobsrv/smtp.go:263-291 | It does agree when the matched ids are those of the store appended to, nobody else is at the store and every encryption succeeds. |
| EndToEnd.CountedButNotStored | interactsh-srv/oobsrv/smtp.go:351-356 | For every client whose payload address is written to: if the encryption fails, or the client deregisters between match and append, the message is counted as matched and nothing is stored for anyone. |
| EndToEnd.MiscountedMessage | interactsh-srv/oobsrv/smtp.go:351-356 | The same with every text written out, from the empty store. |
| SmtpCaptureModel.OncePerDomain | interactsh-srv/oobsrv/smtp.go:312-326 | One message adds to a domain's bucket exactly one copy, that of the first recipient matched to the domain, and nothing if there is none. |
| Lifecycle.Client.StartPolling | oobclient/client.go:432-449 | Starts one poll loop from the idle state only; the other states answer with their error and change nothing. |
| Lifecycle.Client.StopPolling | oobclient/client.go:582-599 | Cancels the one poll loop and goes idle; idle and closed change nothing. |
| Lifecycle.Client.BeginClose | oobclient/client.go:621-643 | The first Close cancels poll loop and keep-alive and closes the client; later ones change nothing; it joins exactly when there was a keep-alive. |
| Lifecycle.StepInv | oobclient/client.go:337-366 | Every step of every call and of the keep-alive goroutine keeps the lock, poll-loop and closing invariants. |
| Lifecycle.DeregistersOnce | oobclient/client.go:621-650 | Over any number of concurrent Close calls at most one deregistration is begun, and from then on no re-registration is in progress. |
| Lifecycle.PollingIffOneLoop | oobclient/client.go:432-449 | With the lock free the client is polling if and only if exactly one poll loop is uncancelled, and that is the one a stop would cancel. |
| Lifecycle.CloseNeverStuck | oobclient/client.go:645-649 | While a Close waits for the keep-alive goroutine, the goroutine has an enabled step or waits for a call that has one; each of its steps brings it nearer its end and nothing takes it back. |
| SessionView.ShowsRun | interactsh-srv/oobsrv/storage.go:222-412 | Over any run of operations on any ids that does not evict it, a session whose own operations come in time stays exactly as its owner sees it: same key and secret, last kept alive when the owner says, holding what was captured since the last poll. |
| SessionView.RoomStays | interactsh-srv/oobsrv/storage.go:163-193 | Room for every registration of the run is enough for it not to be evicted. |
| EndToEnd.PayloadReachesItsClient | interactsh-srv/oobsrv/endpoints.go:66-142 | A client registers, one of its payload domains is hit, all matched copies are appended, the client polls, with any operations of any clients before, between the appends and after, as long as its own come in time and there is room: the first copy is the client's, with id plus nonce as full id, and the poll returns everything captured for it, in order, on either backend. |
| EndToEnd.MailReachesItsClient | interactsh-srv/oobsrv/smtp.go:263-359 | The same for a message to one of the client's payload addresses among any recipients: the poll returns one record for every distinct recipient that matches the client's session, the address among them. |

## Left out

- RSA, AES-CTR, base64, PEM and random bytes: keys, ciphertexts and random bytes are opaque values given to an operation; a failed key generation or encryption is a missing value, a failed random read in the id generator is not modelled.
- LevelDB internals, its I/O errors and `Close`: the database is a reliable map with atomic get, put and delete.
- HTTP and JSON plumbing, request checks other than the id checks, DNS answers, FTP and LDAP servers, certificates, metrics, logging: foreign libraries or thin wrappers.
- `acmeStore`, `wildcardFallbackCertGetter`, the user-agent tracker, `nextMidnightUTC`, configuration validation, response-config admission: they would only add easy members.
- Unicode: texts are ASCII; `strings.ToLower`, `ToUpper`, `TrimSpace`, `FieldsFunc` and `Cut` are specified by functions on ASCII characters.
- The sort in `New` is a library call; its result, domains listed longest first, is what the theorems ask for.
- Clocks: every operation is given its instants, and a touch takes that of the expiry test before it; the store theorems ask for times below the largest int64 and, where named, for a clock that does not go back. The 64-bit wrap-around of counters is not modelled.
- The capacity is a field of the policy (2,500,000 in the code), so that the theorems hold for every capacity.
- `evictLRU`'s branch for a list element without a session: the index invariant, proved for every reachable state, makes it dead, so the method has `assert false` there.
- MemorySteps: `hits` and `misses` of the calls that run outside the write lock are not counted in the concurrent machine; the expiry test and the touch are one atomic step each; session objects are values named by identities there.
- DiskSteps: records are a list per key with their owner, which RecordCodec relates to bytes for payloads shorter than 2^32; expiry and secrets are abstracted by letting a writer remove and register any session.
- Fairness of `sync.RWMutex`: a waiting writer that holds back new readers is not modelled; progress is stated as enabled steps.
- DiskDelivery.DeliveredInOrder: asks that the handles of the id in question read while their session is registered, because the code drains by id; DiskStaleHandle.StaleHandleRun and StaleTakeBreaksIff show what happens otherwise.
- LruOrder.EvictionIsExact: is about atomic operations under sliding expiry; with fixed expiry lastAccess is never refreshed.
- LazyExpiry.ExpiryInvisible: leaves out Delete's own return value, which does see a session that expired but was not evicted yet; DeleteAnswerIff says exactly when it does.
- StoreInvariants.RunOk: asks for non-empty ids; CapacityKeptIff says exactly when the capacity holds without that, and EmptyIdDefeatsCapacity gives a run for which it fails. The deployed server never registers the empty id: interactsh-srv/oobsrv/config.go:139 asks for ids of at least three characters.
- Lifecycle.PollingIffOneLoop: speaks of cancelled loops, not of a poll request still in flight after StopPolling or Close, which the code does not join.
- SmtpSessionModel.EnvelopeRoundTrip: is about connections without STARTTLS, for which there is no tee.
- SmtpCaptureModel.Smtp.OnSMTPData: the registered ids may differ from recipient to recipient but are fixed while one recipient is scanned, as they are during one scan of any front end.
- Capture: a bucket is the log of its entries; SharedBucketModel relates that log to the trimmed buffer. Its store is a value, changed as `Store` says; MemoryStorageModel carries the same operations out on objects.
- CaptureStorage.InteractionStored: has nobody else at the store; SessionGains has anybody, for a session that is used in time and not evicted.
- CaptureStorage.MessageStored: likewise.
