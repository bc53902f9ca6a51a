# A model of the repository's cores

The repository is a library of small Go packages. This project models those of them that hold state
machines, codecs and arithmetic, and proves what they are for:

- a bounded queue over a circular doubly linked list, whose `Remove` relinks the list while it walks it
  (`Ring`, `QueueModel`, `RingQueue`);
- the printed ciphertext `{CRYPT}$algorithm$base64(args)$base64(body)`, with the base64, block chaining and
  padding under it, and the self-encrypting string on top (`Bytes`, `Base64`, `Cbc`, `Aes`, `Envelope`,
  `EnvelopeFormat`, `Misreading`, `SafeString`);
- the shutdown of a process level by level, with its wait groups, mutex, stop channel, timer and actor group
  (`Shutdown`, `ShutdownSafety`, `ShutdownProgress`, `ShutdownCalls`);
- sizes such as `1GB20MB` in wrapping 64-bit arithmetic (`Digits`, `Capacity`, `CapacityText`,
  `CapacityUnits`);
- joining of paths (`Paths`, `PathComponents`), identifiers that sort by time (`Ids`), the in-place compaction of log
  key/value lists (`LogExt`), a reader that reads ahead (`PreReader`), a bounded array set (`Distinct`, `ArraySet`) and
  an insertion-ordered set (`OrderedSet`).

`dafny verify dfyconfig.toml` checks everything.

Code that updates fields, buffers or links is a class or a method over the heap, proved against a function on
values; the properties are then lemmas about that function over all inputs and all runs. What a function computes is
stated a second time without it: by position, by written-out numbers, or by the calls that were made. The shutdown,
which is concurrent, is a step relation: every interleaving of its steps is a run.

## What is given from outside

- The block ciphers are arbitrary: `Permutes` asks only that blocks go to blocks and that decrypting undoes
  encrypting. SHA-256 is any function with 32 bytes of output. Random bytes, the clock and the random part of an
  identifier are inputs, and the random source may fail.
- Base64 follows section 4 of RFC 4648 with padding omitted (section 3.2), block chaining section 6.2 of NIST
  SP 800-38A, padding section 6.3 of RFC 5652.
- oklog/run interrupts all actors one by one in the order in which they were added, and `run.Group.Run` is called
  at some point.
- The source of the pre-reading stream is any reader that splits its data as it likes and gives nothing without an
  error only finitely often. A panic of the source is the outcome `Panic`.

## Where the code does not do what it seems to promise

- `RingQueue.Remove` cuts the base cell `r.r` out of the ring when its predicate holds on the element stored there.
  The cell remains the origin of both offsets, so the elements that should be kept are lost to `List`, while `Len`
  still counts them, and `Get` delivers the removed element and panics after it (`RingQueue.RemoveBaseElement`,
  `QueueModel.RemoveIsNotAFilter`, `QueueModel.DetachedDelivers`). The ring is intact after `Remove` if and only if
  that is not the case; `List` returns the filter if and only if that is not the case or nothing was to be kept
  (`QueueModel.RemoveFiltersExactly`). `QueueModel.DetachedExactlyByBaseHit` says it for runs.
- `Capacities.String` and `ParseCapacities` are inverse exactly for amounts that are not zero and below 1024^5 in
  magnitude (`CapacityText.RoundTripExactly`): 0 is printed as the empty text, which the parser refuses, and
  larger multiples are dropped.
- `String.String` of package safe encrypts with the string's own secret even if it has decided to encrypt because
  of the one in the environment. An unencrypted value without a secret of its own, as `Scan` leaves it, is then
  sealed with the empty secret. In every other state the plaintext survives; in this one there are, for every
  environment secret, ciphers under which it is lost (`SafeString.StringKeepsExactly`). Only a secret of 8 bytes makes
  `UnsafeString` fail; with any other it returns some text of the same length (`SafeString.StringKeepsPlaintext`).
- `String.UpdateSecret` sets the new secret even when it could not re-encrypt for want of random bytes. The old
  ciphertext then stands beside the new secret (`SafeString.RekeyWithoutRandom`). A sealed plaintext survives that for
  all ciphers if and only if the secret does not change, or the plaintext is empty and the new secret suits the cipher
  (`SafeString.RekeyWithoutRandomExactly`). If it does not suit, `UnsafeString` fails; otherwise it returns some text
  of the same length without an error (`SafeString.RekeyWithoutRandomOutcome`).
- A second call of `safeStop` closes the closed stop channel if an exit function returns. Apart from a `PreStop`
  beyond the highest level the process can panic exactly then: exit functions may return, and `safeStop` is called at
  least twice, the group's own call included (`ShutdownProgress.PanicsExactly`, `ShutdownSafety.RunsAreSafe`).
- Identifiers with one seed sort by time on either side of 1970 (`Ids.IdsIncrease`), but not across it: the conversion
  of the time to uint64 makes times before 1970 the greatest numbers, and the seed is added only from 1970 on. Without
  a seed every identifier made before 1970 is greater than every later one (`Ids.UnseededIdsAcross1970`,
  `Ids.LaterIdIsSmaller`); `Ids.IdsAcross1970` says exactly when the order holds.
- The comment on `Set.List` speaks of a sorted slice; it is the order of insertion.

## Model

| member | source | states |
|---|---|---|
| `RingQueue.RingQueue.constructor` | wrapper/queue.go:22-27 | a new queue is empty, on a ring of n + 1 cells |
| `RingQueue.RingQueue.Put` | wrapper/queue.go:82-96 | appends the value and fails exactly when n elements are queued; every other element, the capacity, the ring and the head's offset stay; on a queue whose base cell has been cut out it overwrites the one cell |
| `RingQueue.RingQueue.Get` | wrapper/queue.go:98-111 | takes the head off and fails exactly when the queue is empty; the rest stays in order; with the base cell cut out it delivers what the one cell stores and panics when that is nil |
| `RingQueue.RingQueue.Remove` | wrapper/queue.go:51-80 | asks about each element once, in order; unless the predicate holds on the element in the base cell, and only then, the ring again has max different nodes with inverse links and the base among them, and stores exactly the elements on which it is false, in their order; otherwise the base is cut out with its value still in it, and after that Remove does nothing |
| `RingQueue.RingQueue.List` | wrapper/queue.go:39-49 | the elements from head to tail; nothing once the base cell has been cut out |
| `RingQueue.RingQueue.Len` | wrapper/queue.go:113-121 | the number of elements, also those that a cut-out base has lost |
| `RingQueue.RingQueue.Turn` | wrapper/queue.go:57-79 | one turn of the loop of Remove keeps the ring, the order of the stored values and the bookkeeping of the sweep |
| `RingQueue.SweepOffsets` | wrapper/queue.go:56-78 | after any number of turns both offsets are the distances from the base cell to the first and behind the last live cell, wrapped or not, unless the base was cut out |
| `RingQueue.SweepResult` | wrapper/queue.go:58-70 | when Remove has finished, the head has moved by exactly the elements removed ahead of the base cell, and the base is cut out exactly if the predicate holds on its live element |
| `RingQueue.StoredIsKept` | wrapper/queue.go:57-79 | deleting one cell after another leaves the filter of what was visited followed by what was not |
| `RingQueue.Execute` | wrapper/queue.go:22-111 | every run of calls on a new queue answers as the model does: a bounded first-in first-out sequence up to the Remove that cuts out the base, and the one cell with its offsets from then on |
| `RingQueue.RemoveBaseElement` | wrapper/queue.go:75-77 | a queue holding 1 and 2 from which 1 is removed lists nothing, has length 1 and delivers the removed 1 |
| `QueueModel.FirstInFirstOut` | wrapper/queue.go:82-111 | over every run the delivered values followed by the queued ones are a subsequence of the accepted values, and without a Remove all of them |
| `QueueModel.NothingElseIsLost` | wrapper/queue.go:51-111 | over every run the delivered values, the queued ones and those on which the predicate of a Remove was true are together the accepted values, each as often |
| `QueueModel.KeptByPredicate` | wrapper/queue.go:63-79 | the predicate is false on every element that Remove keeps and true on every one that it drops |
| `QueueModel.RemoveFiltersExactly` | wrapper/queue.go:51-80 | what List returns after a Remove is the filter if and only if the base cell stays or nothing was to be kept; what Len returns always fits the filter |
| `QueueModel.DetachedExactlyByBaseHit` | wrapper/queue.go:66-77 | over a run the base is cut out if and only if some Remove meets a predicate true on the element in the base cell |
| `QueueModel.RemoveIsNotAFilter` | wrapper/queue.go:75-77 | the concrete run on which Remove is not a filter |
| `QueueModel.DetachedDelivers` | wrapper/queue.go:98-111 | once the base has been cut out and some element kept, the next Get delivers the element that was removed, and the one after it, if more was kept, panics |
| `Base64.Base64RoundTrip` | safe/encrypt.go:162-163 | decoding undoes encoding for every byte string, and an encoding contains no dollar sign |
| `Base64.SymbolOfTable` | safe/encrypt.go:162-163 | the 64 symbols are those of the standard table, letters, digits, plus and slash |
| `Base64.SextetsAreDigits` | safe/encrypt.go:162-163 | the symbols of three bytes are the digits in base 64 of the number that the bytes are in base 256 |
| `Base64.EncodedLength` | safe/encrypt.go:162-163 | the encoding is not padded: its length is (4n + 2) / 3 |
| `Base64.Vectors` | safe/encrypt.go:162-163 | the test vectors of RFC 4648, and the symbols plus and slash |
| `Bytes.Uint32RoundTrip` | safe/encrypt.go:150 | the four big-endian bytes of a number below 2^32 read back as that number |
| `Bytes.XorTwice` | safe/encrypt.go:216-222 | masking twice with the same bytes gives the bytes back |
| `Bytes.XorByteAt` | safe/encrypt.go:152-156 | masking is exclusive or on each of the eight bits |
| `Cbc.CbcRoundTrip` | safe/encrypt.go:231-233 | for every permutation of blocks, initial vector and whole number of blocks, chained decryption undoes chained encryption |
| `Cbc.ChainedBlock` | safe/encrypt.go:159-161 | each block of ciphertext is the encryption of its block of data masked with the block of ciphertext before it, the first with the initial vector |
| `Cbc.EncryptBlocks` | safe/encrypt.go:159-161 | filling the buffer block by block gives the chained encryption |
| `Cbc.DecryptBlocks` | safe/encrypt.go:231-233 | filling the buffer block by block gives the chained decryption |
| `Cbc.PaddingFillsBlock` | safe/encrypt.go:50-55 | padded data is a whole number of blocks, for every length and block size |
| `Cbc.PaddedText` | safe/encrypt.go:50-55 | the fill is 1 to n bytes, up to the next multiple of n, that say how many they are |
| `Cbc.UnpaddingRoundTrip` | crypto/aes.go:65-75 | for block sizes from 1 to 255 dropping as many bytes as the last byte says undoes the padding, also of empty data |
| `Aes.CBCEncrypt` | crypto/aes.go:41-51 | the buffer ends as the chained encryption of the padded data under key[:16]; a refused key is an error |
| `Aes.CBCDecrypt` | crypto/aes.go:53-63 | the same for decryption; text that is not whole blocks panics, as do empty text and a last byte that is too large |
| `Aes.CBCRoundTrip` | crypto/aes.go:35-75 | for every key of 16, 24 or 32 bytes and every plaintext decryption returns the plaintext; every other key is refused both ways |
| `Aes.CBCFormat` | crypto/aes.go:41-51 | the ciphertext is the chain of the filled data that starts from the first 16 bytes of the key |
| `Envelope.FixAlgo` | safe/encrypt.go:100-126 | the options and the key that are left, for every key length |
| `Envelope.FixedAlgoFits` | safe/encrypt.go:100-126 | after fixAlgo the cipher takes the key however long it was, and an algorithm that fits already is kept |
| `EnvelopeFormat.FixedAlgoChoice` | safe/encrypt.go:100-126 | an algorithm that suits the key is kept, otherwise 8 bytes select DES, 24 triple DES and all others AES; only keys of other lengths than 8, 16, 24 and 32 are hashed |
| `EnvelopeFormat.NilOptions` | safe/encrypt.go:129-134 | the algorithm for each key length with nil options |
| `Envelope.AlgoRoundTrip` | safe/encrypt.go:185-199 | each of the 256 algorithm bytes is read back from the hexadecimal field that String prints |
| `EnvelopeFormat.AlgoField` | safe/encrypt.go:244-246 | the field is upper-case hexadecimal, without a zero in front |
| `Envelope.MaskInPlace` | safe/encrypt.go:151-157 | the five assignments mask exactly the header, and only with a vector of five bytes or more |
| `Envelope.ArgsRoundTrip` | safe/encrypt.go:215-234 | for every mode, padding method of four bits, padding length and initial vector, all are read back from the masked arguments, the mode in the four bits that it has |
| `Envelope.FieldsRoundTrip` | safe/encrypt.go:183-230 | the parser finds the three fields that the printer wrote |
| `Envelope.BodyRoundTrip` | safe/encrypt.go:231-239 | the body decrypts and unpads to the data under the arguments printed with it |
| `Envelope.Encrypt` | safe/encrypt.go:128-164 | the code over buffers computes the printed envelope in every case, errors and panics included, and changes nothing but the algorithm in the options |
| `EnvelopeFormat.EncryptedFormat` | safe/encrypt.go:140-163 | every result is {CRYPT}, the digit of the algorithm, and in base64 the arguments and the body: the arguments are the random bytes of the vector behind a header whose one byte that is not zero is the fill, masked with the first five random bytes; the body is the chain over the filled data under that vector |
| `EnvelopeFormat.DifferentVectorsShow` | safe/encrypt.go:144-158 | equal results, of whatever data, come from equal random bytes, as many as a block has |
| `Envelope.Decrypt` | safe/encrypt.go:168-240 | the code over buffers computes the parse and decryption in every case, errors and panics included |
| `Envelope.EncryptionRoundTrip` | safe/encrypt.go:128-240 | whenever Encrypt succeeds, for all data, keys, options and random bytes, Decrypt of its output with the same key returns the data |
| `Envelope.EncryptionSucceeds` | safe/encrypt.go:128-161 | Encrypt succeeds if and only if the random source works, the mode is CBC, the padding PKCS5, and fixAlgo is set or the key suits the algorithm; it panics exactly if only the mode is wrong |
| `Envelope.UnfitKeyCannotDecrypt` | safe/encrypt.go:201-204 | a key whose length does not suit the printed algorithm gets an error |
| `Envelope.FittingKeyDecrypts` | safe/encrypt.go:168-240 | any other key that suits the printed algorithm opens the envelope without an error, to a text of the length of the data |
| `Misreading.OtherKeyMisreads` | safe/encrypt.go:128-240 | for any two different keys and data that is not empty there are lawful ciphers and a hash under which the second key does not read what the first has sealed |
| `SafeString.SafeString.SetValue` | safe/string.go:126-136 | the new value and secret, and when an error is returned |
| `SafeString.SafeString.UpdateSecret` | safe/string.go:138-149 | re-encrypts under the new secret; nothing changes if the old value cannot be read, and a panic of Decrypt is passed on |
| `SafeString.SafeString.String` | safe/string.go:45-57 | seals an open value under the string's own secret and returns what is stored; with random bytes that is empty or sealed where there is a secret |
| `SafeString.SafeString.UnsafeString` | safe/string.go:105-116 | the decrypted value, or the open one |
| `SafeString.SafeString.New` | safe/string.go:186-195 | the value sealed under its secret where there is one |
| `SafeString.SealHolds` | safe/string.go:126-149 | with nil options sealing fails only for want of random bytes, and what is sealed reads back |
| `SafeString.StepSeals` | safe/string.go:45-149 | with random bytes SetValue of a text that is not empty, where there is a secret, UpdateSecret and String leave an envelope, which opens to the text under the secret that is left, its own before the environment's or the new one |
| `SafeString.RunStaysClosed` | safe/string.go:45-149 | over every run with a working random source no text is stored open where there is a secret |
| `SafeString.StartsClosed` | safe/string.go:186-195 | NewEncryptedString with a secret stores an envelope |
| `SafeString.StepHolds` | safe/string.go:45-149 | SetValue, UpdateSecret and String keep the invariant that the state stands for the expected plaintext, whenever the random source fails; the plaintext is given up exactly when UpdateSecret leaves a ciphertext beside a secret that does not read it |
| `SafeString.RunHolds` | safe/string.go:45-149 | over every run, with the random source failing at any operation, UnsafeString returns the expected plaintext unless it was given up and not set again |
| `SafeString.PlaintextSurvives` | safe/string.go:105-195 | over every run of a zero value or of NewEncryptedString with a secret, for every environment secret, UnsafeString returns the expected plaintext; with a working random source that is the one set last |
| `SafeString.RekeyWithoutRandom` | safe/string.go:138-149 | without random bytes UpdateSecret changes the secret alone: an open value stays readable, a sealed one is decrypted under the new secret from then on |
| `SafeString.RekeyWithoutRandomOutcome` | safe/string.go:144-148 | then the plaintext could be read before, and afterwards UnsafeString fails if the cipher named in the envelope does not take a key of the new length, and otherwise returns some text of the same length without an error |
| `SafeString.RekeyWithoutRandomExactly` | safe/string.go:138-149 | over all ciphers the plaintext survives a re-keying without random bytes if and only if the secret does not change, or the plaintext is empty and the key lengths are compatible |
| `SafeString.StringKeepsPlaintext` | safe/string.go:45-57 | String keeps what UnsafeString returns unless the value is open, has no secret of its own, the environment has one and random bytes are to be had; then the plaintext is sealed under the empty secret, and UnsafeString fails with an environment secret of 8 bytes and otherwise returns some text of the same length |
| `SafeString.StringKeepsExactly` | safe/string.go:45-57 | over all ciphers String keeps what UnsafeString returns if and only if it is not that case, for every environment secret |
| `ShutdownSafety.InvKept` | signals/signal.go:97-130 | every step of hooks, stoppers, counters, actors and callers but the return of an exit function keeps the protocol's invariant, and only a PreStop beyond the highest level panics |
| `ShutdownSafety.ReleaseIsOver` | signals/signal.go:113-129 | when an exit function returns, every registered hook has begun and ended, nothing is running, and the other stoppers have not begun |
| `ShutdownSafety.OverKept` | signals/signal.go:112-115 | after that no step starts or ends a hook, and the next stopper that gets the mutex closes the closed channel |
| `ShutdownSafety.CountedKept` | wrapper/run.go:36-46 | every wait group holds what AddFor left in it, that of level 1 one more for each actor that has not been interrupted, and no DoneFor finds its counter at zero |
| `ShutdownSafety.ExclusiveKept` | signals/signal.go:112-115 | until an exit function returns one stopper at a time is past the mutex, and the stop channel is closed only when it is open |
| `ShutdownSafety.RunsAreSafe` | signals/signal.go:97-157 | over every run and interleaving, whether exit functions return or not: the log of events is orderly for the hooks that were registered when the mutex was first taken, so that later ones never begin; the level-1 counter is other work plus the actors not yet interrupted, and the group's own SafeStop begins when none of them is left; once the process has exited after a drain or an exit function has returned all those hooks have begun and ended; the stop channel is closed twice only if safeStop is called twice and an exit function returns |
| `ShutdownCalls.HooksAreThoseRegistered` | signals/signal.go:97-104 | the hooks that the shutdown runs at a level are as many as calls of PreStop for that level came before the mutex was first taken, for each of the 32 levels |
| `ShutdownCalls.CountersAreThoseCalled` | signals/signal.go:81-91 | every counter is the sum of the deltas of AddFor less the calls of DoneFor, at level 1 with the actors that were added and not interrupted |
| `ShutdownCalls.DrainWaitsForCalls` | signals/signal.go:126-127 | the wait for a level returns only when all that was counted is done, and at level 1 every actor has been interrupted |
| `ShutdownCalls.PreStopsRunInOrder` | signals/signal.go:97-130 | of two calls of PreStop in time, the hook of the higher level has ended, and its counter has been seen at zero, before that of the lower begins; both have ended when an exit function has been called after the drain |
| `ShutdownSafety.HigherLevelsFirst` | signals/signal.go:116-128 | before a hook begins, each hook of each higher level has ended, and after that the counter of that level has been seen at zero |
| `ShutdownSafety.HooksRunOnce` | signals/signal.go:120-126 | a hook begins once and ends once at most, and begins before it ends |
| `ShutdownProgress.StepDecreases` | signals/signal.go:106-130 | every step that is neither a call from outside nor a timer whose exit function returns makes a measure smaller, with any number of actors, hooks and stoppers |
| `ShutdownProgress.NeverStuck` | signals/signal.go:112-129 | until every call of safeStop is through or the process has ended some step other than the timer is possible |
| `ShutdownProgress.TimerCanEnd` | signals/signal.go:107-111 | once safeStop has been called its timer can end the process at any time |
| `ShutdownProgress.ShutdownEnds` | signals/signal.go:106-130 | from every reachable state a run without new calls takes no more steps than the measure, timers whose exit function returns not counted; one that goes on as long as it can drains all levels and exits, unless a timer ends the process, or, where exit functions may return, ends with every call of safeStop through or with the second close |
| `ShutdownProgress.SecondCloseWhenExitReturns` | signals/signal.go:112-129 | with exit functions that return two calls of safeStop are enough for a run that closes the channel twice |
| `ShutdownProgress.PanicsExactly` | signals/signal.go:112-129 | from every reachable state the process can panic without new calls from outside if and only if exit functions may return and safeStop has been called, or will be by the group, at least twice |
| `Capacity.WrapDetects` | capacity/format.go:86-88 | up to twice the largest int64 a wrapped sum is negative exactly when it has overflowed |
| `Capacity.LeadingInt` | capacity/format.go:75-93 | returns the number of the leading digits and the rest exactly when it fits into 63 bits, and an error otherwise |
| `Capacity.LeadingFraction` | capacity/format.go:46-72 | consumes all leading digits and accumulates those that fit |
| `Capacity.FractionIsRoundedDown` | capacity/format.go:46-72 | the accumulated fraction is the true one rounded down in the last place of its scale, and digits are dropped only if all of them do not fit into 63 bits |
| `CapacityUnits.FractionWithUnit` | capacity/format.go:132-181 | a number with a point and a unit is the number times the unit plus what the float product gives for the places, in wrapping arithmetic, and refused where that is negative or the number alone does not fit |
| `Capacity.QuotientTest` | capacity/format.go:162-164 | the test by division refuses exactly the products above 2^63 - 1 |
| `Capacity.ParseCapacities` | capacity/format.go:95-187 | the loop in wrapping arithmetic computes the term-by-term parse, errors included |
| `CapacityText.FmtInt` | capacity/capacity.go:31-44 | writes the decimal digits at the tail of the buffer and touches nothing else |
| `CapacityText.String` | capacity/capacity.go:74-108 | for every int64 the 32-byte buffer is never overrun, and its tail is the rendered text |
| `CapacityText.WellFormedTextParses` | capacity/format.go:95-187 | every sign and sequence of numbers and units parses to the exact signed sum if the sum is at most 2^63 - 1, and is refused otherwise |
| `CapacityUnits.NumberWithUnit` | capacity/format.go:27-37 | digits and one of the nine names, in letters of either case, are their number times 1, 1024, 1024^2, 1024^3 or 1024^4, or refused above 2^63 - 1; any other name is refused |
| `CapacityUnits.ZeroParses` | capacity/format.go:99-111 | 0 needs no unit, with or without a sign; a sign alone and the empty text are refused |
| `CapacityText.AcceptedIsWellFormed` | capacity/format.go:95-187 | without decimal points nothing but such texts and a signed or unsigned 0 is accepted |
| `CapacityText.RenderedIsText` | capacity/capacity.go:88-102 | what is printed is a sequence of numbers and units that add up to the amount without its multiples of 1024^5 |
| `CapacityUnits.ShownParts` | capacity/capacity.go:46-107 | the text for t terabytes, g gigabytes, m megabytes, k kilobytes and b bytes, each below 1024: those that are not zero in that order, with TB, GB, MB, KB and B, behind a minus for a negative amount |
| `CapacityText.PrintedParses` | capacity/capacity.go:74-108 | for every int64 the printed text parses to the signed amount modulo 1024^5, or is refused where that is zero |
| `CapacityText.RoundTripExactly` | capacity/format.go:95-187 | parsing gives the printed amount back if and only if it is not zero and below 1024^5 in magnitude |
| `Paths.JoinTwo` | http/http.go:27-43 | the assignments compute the join of two paths |
| `Paths.JoinPath` | http/http.go:45-56 | the loop computes the join of all of them |
| `Paths.JoinedAssociates` | http/http.go:27-43 | joining is associative on all strings |
| `Paths.JoinedAllSplits` | http/http.go:45-56 | joining two non-empty lists at once or one after the other gives the same path |
| `PathComponents.JoinedAllComponents` | http/http.go:45-56 | the components of a joined path that are not empty are those of its parts, in order, for any number of parts |
| `PathComponents.JoinedText` | http/http.go:27-43 | two paths are joined by one slash behind a leading one, whether they bring those slashes or not |
| `PathComponents.JoinedEdges` | http/http.go:27-56 | nothing is added for an empty path or a lone slash; no path and a single path stay as they are |
| `Ids.SeedHash` | generator/uuid.go:36-48 | the wrapping loop over chunks is the sum modulo 2^64 of the zero-padded big-endian words of all seeds |
| `Ids.WordSumByPlaces` | generator/uuid.go:38-47 | every byte of a seed counts, by its place in its group of eight |
| `Ids.SeedSumOfAll` | generator/uuid.go:37-48 | every seed counts |
| `Ids.OffsetOfSeed` | generator/uuid.go:49-52 | what is added to the time is the sum modulo 2^63, or 2^63 itself |
| `Ids.NewUUID` | generator/uuid.go:33-58 | the first eight bytes are the stamp, big-endian, and read back as that number, the others are the random ones |
| `Ids.StampFits` | generator/uuid.go:34-53 | the stamp fits into 64 bits: the time and what the seed adds from 1970 on, and 2^64 less the distance before |
| `Ids.BigEndianOrders` | generator/uuid.go:56 | big-endian words compare byte by byte as the numbers they stand for |
| `Ids.HexOrders` | generator/uuid.go:29-31 | hexadecimal strings compare as the bytes they show |
| `Ids.HexDigits` | generator/uuid.go:29-31 | the digits are lower-case, the high one first |
| `Ids.IdsIncrease` | generator/uuid.go:29-58 | with one seed the later of two times, both before or both from 1970 on, has the greater identifier, whatever the random bytes |
| `Ids.IdsAcross1970` | generator/uuid.go:34-53 | of a time before and one from 1970 on the identifiers are in order if and only if the seed lifts the later stamp above the earlier one, or to it and the random bytes are in order |
| `Ids.IdsCompareByStamp` | generator/uuid.go:29-58 | any two identifiers, of any seeds, compare as their stamps, and as their random bytes between equal stamps |
| `Ids.UnseededIdsAcross1970` | generator/uuid.go:34-53 | without a seed every identifier made before 1970 is greater than every one made later |
| `Ids.LaterIdIsSmaller` | generator/uuid.go:34-53 | the two identifiers on either side of 1970 |
| `LogExt.Compact` | log/ext.go:48-72 | the loop stays in bounds, ends, and leaves the merged list at the front of the array and the printed values in order |
| `LogExt.Log` | log/ext.go:48-72 | the list that is passed on and the values that are printed, as functions of the pairs, for lists of odd length too |
| `LogExt.CompletedKeeps` | log/ext.go:49-51 | nothing is dropped from a list of odd length, and its last key gets the missing value |
| `LogExt.PairGoes` | log/ext.go:54-72 | the value of each withPrint pair goes to the printed values and each other pair to the list, behind those that came before it |
| `LogExt.MergedSnoc` | log/ext.go:58-65 | one more pair is appended, or, if it is another caller pair, replaces the value of the first one |
| `LogExt.MergedKeepsTheRest` | log/ext.go:58-65 | at most one caller pair is left, and the other pairs are those there were, in order |
| `PreReader.NewPreReader` | buffer/pre_reader.go:68-82 | nothing of the stream is lost, on success the buffer is its first min(maxLen, length) bytes, and it fails only if the source does |
| `PreReader.PreReader.Read` | buffer/pre_reader.go:49-58 | delivered bytes plus pending bytes are what was pending; buffered bytes come as many as fit, and io.EOF comes only at the end of the stream |
| `PreReader.PreReader.Close` | buffer/pre_reader.go:34-39 | the buffer and the length to read ahead are forgotten, so that only the source's unread data is left and read directly |
| `PreReader.PreReadStream` | buffer/pre_reader.go:34-82 | over every sequence of reads delivered, buffered and unread bytes are the original stream, and the buffer stays its beginning |
| `PreReader.PreReadWhole` | buffer/pre_reader.go:49-82 | reading to io.EOF after a successful NewPreReader ends, and delivers exactly the original stream unless the source fails |
| `ArraySet.ArraySet.Append` | sets/array.go:59-84 | the loop over the array, with any callback that decides by the elements it is given whether to fail, to do nothing or to reset, computes the fold over the values, its reply included |
| `ArraySet.ArraySet.Reset` | sets/array.go:52-55 | the set is empty on a fresh array |
| `ArraySet.ArraySet.Include` | sets/array.go:95-102 | finds exactly the elements, and the zero value while a cell is free |
| `ArraySet.AddedIsSound` | sets/array.go:59-84 | the set and every batch never repeat an element, and every batch has exactly `size` elements |
| `ArraySet.RepliesSay` | sets/array.go:67-83 | the reply of Append passes on the error of the callback's last call, and only that; after a callback that left the set full it is nil, and the set is the batch that was handed out |
| `ArraySet.RecordingKeepsAll` | sets/array.go:59-84 | with a callback that resets, batches and set together hold exactly the values appended, but for the zero value, which is kept exactly if it was there or comes when no cell is free; Append never fails |
| `ArraySet.BatchesAreSegments` | sets/array.go:59-84 | the values fall into consecutive segments, one for each batch and one for the set, which keep the first occurrences of their values in order; a segment begins where a value comes that the full set does not hold |
| `ArraySet.FirstValuesStay` | sets/array.go:67-80 | without a callback the set is the first `size` different values but the zero value, in order, and ErrorSetFull is returned exactly when there is another one or the zero value comes when no cell is free |
| `OrderedSet.Set.Insert` | sets/sets.go:48-55 | after any inserts the map is the numbering of the first occurrences; present elements keep their numbers |
| `OrderedSet.Set.Equal` | sets/sets.go:171-173 | true if and only if the memberships coincide |
| `OrderedSet.ListIsInsertionOrder` | sets/sets.go:186-194 | the list is the order of first insertion for every order of map iteration and every sort by index |
| `Distinct.FirstOccurrencesInOrder` | sets/sets.go:48-55 | of two listed elements the first was inserted before the other |
| `OrderedSet.ListingExists` | sets/sets.go:186-194 | such a list exists for every run of inserts |
| `OrderedSet.CloneIsEqual` | sets/sets.go:72-74 | inserting the list into an empty set gives the same elements with the same numbers |

## Left out

- The network clients, tracing, jwt, templates, value conversion, log configuration and file rotation: plumbing
  around other libraries.
- The real ciphers, SHA-256, randomness and clock: they are parameters or inputs.
- Concurrent use of the queue (Get looks at the offsets before it takes the lock) and of the array set's atomic
  index: only sequential runs have a clean specification.
- NewRingQueue with a negative n, and nil interface values put into the queue. Do walks as List does.
- RingQueue.RingQueue.Remove: the predicate is a function of the element; one that answers by what it was asked before
  is not modelled, though it is asked about each element once, in order.
- Capacity fractions: the product of a fraction and a unit is a function parameter of the parser, because it is
  rounded in float64; the digits of the fraction and their scale are exact. Letters in units are ASCII.
- Envelope.Encrypt: a data slice with spare capacity, whose bytes behind its end padding overwrites; the model copies.
- Envelope.Decrypt: what it answers to texts that Encrypt does not print is that of the code, and no more is claimed
  about it.
- SafeString.PlaintextSurvives: SetSecret, Scan, UpdateSecret with the empty secret and the JSON and YAML readers are
  not among the operations, because they change value or secret without re-encrypting; plaintexts that begin with
  {CRYPT} are taken for ciphertexts by the code.
- ShutdownSafety.RunsAreSafe: hooks, interrupt and exit functions that panic, counters taken back below zero by their
  callers, levels above 31 passed to AddFor (nobody waits for those), and more than one actor group.
- ShutdownProgress.ShutdownEnds: it assumes that hooks, actors and counted work end when they are left to run; the
  timer is a step that may come at any time once safeStop has been called.
- ShutdownProgress.PanicsExactly: which of the exit functions return is left open, so that they may differ from call to
  call; that they may return is one property of the process.
- ArraySet: elements are compared with equality; floating-point NaN and deep comparison of nested values are not
  modelled, nor are callbacks that append to the set themselves, replace the callback or
  decide by anything but the elements they are given.
- LogExt.Log: a list of odd length is always copied; the code may complete it in the caller's array if that has room.
- Set.Delete, PopAny, Union, Difference, Intersection and SortedList: after a deletion indices may collide, and only
  easy membership facts remain.
- PreReader.PreReader.Read: the source's own errors behind the buffer are passed on and not classified further.
- GetRemoteAddr, the JSON and YAML forms of capacities, the remaining helper packages: finite or easy members.
