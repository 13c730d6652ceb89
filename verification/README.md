# A verified model of the RLN membership gifter and its Keycard attestations

The system lets the holder of a genuine Keycard, or of any other credential a gifter operator accepts, obtain one
RLN membership paid for by the operator. This project models its four cores in Dafny and proves what each is for,
and the two end-to-end guarantees they add up to: *an attestation that is minted is accepted*, and *a credential
buys at most one membership*.

**The gifter** (`Nullifiers`, `GifterMachine`, `GifterRuns`, `GifterLaws`, `GifterConfigurations`, `GifterServer`,
`GifterRefinement`, `GifterLife`, `GifterInterleaving`, `GifterClient`, `GifterCards`). `GifterMachine` is a
transition system whose steps are the single accesses to shared state: any number of `serve` callers merging,
configuring, swapping and mounting, the worker reserving, registering and settling, and crashes. `GifterLaws` proves
over every run that a credential is submitted at most once, that the set in memory is the file plus the reservation
in flight, that a restart is unobservable, that a credential is refused exactly when it was spent, and that a failed
reservation becomes spendable. `GifterServer` is the server itself: a class whose methods handle one request byte
for byte, and the confirmation loop with its bounds. `GifterRefinement` proves that handling a request is a run of
the transition system, and `GifterLife` draws the conclusion for whole lives of a gifter, in which a restart changes
no later answer; `GifterInterleaving` does so for lives in which serve calls fall anywhere inside requests.
`GifterClient` composes client and server over the wire codec, and `GifterCards` the gifter with the keycard
verifier (`KeycardVector`): a card's identity key buys at most one membership, and a minted attestation of an
unspent card is granted one.

The guarantees rest on promises of the environment, stated as preconditions (`FreshStart`, `Benign`): the nullifier
path is fixed and non-empty, appends succeed, the file is empty or ends in a newline and nobody else edits it; an
error from `register_member` means that nothing was submitted; no crash falls between an accepted submission and its
append; and every authentication type is *storable*. With lowercasing taken as ASCII lowercasing, that last promise
is found exactly: `Nullifiers.KeyStorable` proves that keys of a type survive a restart if and only if the type is
lowercase, has no newline and does not begin with whitespace (a name with another uppercase letter, such as an
accented capital, counts as lowercase here and does not survive in the source), and `Nullifiers.CollisionMeaning`
that two types can share a key if and only if one extends the other by a colon and clean text.
`GifterConfigurations.ConfigurationMeaning` turns this into one condition: as long as the environment keeps its
promises, no credential can be submitted twice if and only if the gifter is open, or has a nullifier path and
storable types only. For the promises about submission and crashes, `GifterLaws` gives the run that spends a
credential twice when the promise is broken.

**The wire codec** (`Bits`, `Text`, `TextLaws`, `Wire`, `Messages`, `MessageLaws`). Varints with their real 64-bit
shifts and ors, the field walker with its callback, the four messages. `TextLaws` says letter by letter what
lowercasing, trimming, hex and lossy UTF-8 do. Decoding inverts encoding for every message that fits in memory, the
walker is compositional, and a message, nested ones included, depends on nothing but the last value of each known
field.

**The secure channel** (`Cbc`, `SecureChannel`). CBC, 0x80 padding and the MAC over an arbitrary pair of mutually
inverse functions on 16-byte blocks. The card is a mirror peer running the same functions; a channel starts closed
and is opened by the authentication exchange, and over every run both sides stay synchronized and all payloads
arrive. The one-byte lengths are proved exact up to 223 plaintext bytes and no further, and the transmit buffer
holds replies up to 991 bytes and no further.

**Attestations** (`Tlv`, `Der`, `BigEndian`, `Groups`, `Modular`, `Curves`, `Ecdsa`, `Attestation`, `Fips202`,
`Keccak`, `Keccak256`). SHA-256 is a function parameter. The curve is a parameter with laws: an abelian group of odd
prime order below 2^256, coordinates below 2^256, a point determined by its x coordinate and the parity of y,
negation keeping x and flipping that parity; secp256k1 has these laws, and `Curves.LawsConsistent` shows that they
contradict nothing. Double-and-add, the inverse modulo the order, the low-S flip, recovery and its converse,
verification, DER and TLV are proved from there. `Fips202` is the bit-level sponge of FIPS 202, and the 64-bit lane
implementation is proved equal to it, including the fused rotate-and-move loop.

The source's loops and state changes are methods; each contract equates the result or the new state with a function
of the inputs and the old state, and the lemmas are about that function. `hide` statements at the head of a proof
only keep definitions out of it.

Where the code and its own comments disagree, the model follows the code. The comment on `auth.rs` says the store
keeps a restarted gifter from granting a spent credential again; for an authentication type that is not storable it
does not (`GifterConfigurations.UnsoundSpendsTwice`). The comment in `server.rs` at lines 281-282 says the name
prefix keeps one vector from squatting another's credentials; that holds for names without a colon, and in general
exactly when neither name extends the other (`Nullifiers.CollisionMeaning`).

## Model

| member | source | states |
|---|---|---|
| Wire.PutVarint | rust/rln-gifter-module/rust-lib/src/wire.rs:44-56 | pushes exactly the base-128 encoding of the value onto the buffer |
| Wire.ReadVarint | rust/rln-gifter-module/rust-lib/src/wire.rs:69-84 | returns the base-128 sum modulo 2^64 of the leading varint and advances past it; nothing when it is truncated or longer than ten bytes; never advances past the buffer or more than ten bytes |
| Wire.DigitAdded | rust/rln-gifter-module/rust-lib/src/wire.rs:75-79 | or-ing a shifted seven-bit group onto the accumulator is addition modulo 2^64, and exact below 64 bits |
| Wire.VarintMeaning | rust/rln-gifter-module/rust-lib/src/wire.rs:44-56 | the encoding is a varint, its groups sum to the value, and it is the shortest one |
| Wire.VarintSize | rust/rln-gifter-module/rust-lib/src/wire.rs:44-56 | a 64-bit value takes one to ten bytes |
| Wire.VarintLengthFinds | rust/rln-gifter-module/rust-lib/src/wire.rs:72-83 | a varint of n bytes is found if and only if the first n bytes are one and n is within the limit |
| Wire.VarintRoundTrip | rust/rln-gifter-module/rust-lib/src/wire.rs:44-84 | for every 64-bit value and every suffix, reading what was put returns the value and consumes exactly its bytes |
| Wire.PutLenField | rust/rln-gifter-module/rust-lib/src/wire.rs:58-62 | pushes key, length and data of a length-delimited field |
| Wire.PutVarintField | rust/rln-gifter-module/rust-lib/src/wire.rs:64-67 | pushes key and value of a varint field |
| Wire.ReadField | rust/rln-gifter-module/rust-lib/src/wire.rs:97-114 | one pass of the walker reads the field its bytes specify, or reports the specified error, inside the buffer |
| Wire.ReadFieldMeaning | rust/rln-gifter-module/rust-lib/src/wire.rs:97-113 | a key of any number and wire type is read as that field, or gives the error of its kind of damage |
| Wire.WalkFields | rust/rln-gifter-module/rust-lib/src/wire.rs:94-117 | terminates on every buffer and folds the callback over exactly its fields in order, or returns the error |
| Wire.WalkAppendFrom | rust/rln-gifter-module/rust-lib/src/wire.rs:94-117 | walking a well-formed prefix and a suffix is walking the prefix and then the suffix at its offset |
| Wire.WalkOffset | rust/rln-gifter-module/rust-lib/src/wire.rs:104-109 | the offset at which fields lie changes neither success nor the fields |
| Wire.WalkAppend | rust/rln-gifter-module/rust-lib/src/wire.rs:94-117 | the walk of a concatenation is the concatenation of the walks, and fails when the second part fails |
| Wire.WalkEncoded | rust/rln-gifter-module/rust-lib/src/wire.rs:58-117 | walking the encoding of any list of fields gives the list back |
| Messages.EncodeRequest | rust/rln-gifter-module/rust-lib/src/wire.rs:143-155 | builds the encoding of the request's fields, empty ones included |
| Messages.EncodeSuccess | rust/rln-gifter-module/rust-lib/src/wire.rs:186-196 | builds the encoding of the success message's fields |
| Messages.EncodeFailure | rust/rln-gifter-module/rust-lib/src/wire.rs:213-217 | builds the encoding of the failure message's field |
| Messages.EncodeResponse | rust/rln-gifter-module/rust-lib/src/wire.rs:231-245 | builds the encoding of the response's fields with the nested messages encoded inside |
| Messages.ReadRequest | rust/rln-gifter-module/rust-lib/src/wire.rs:157-182 | the imperative decoder is the specified decoding of a request |
| Messages.ReadResponse | rust/rln-gifter-module/rust-lib/src/wire.rs:247-282 | the imperative decoder is the specified decoding of a response |
| Messages.RequestByLast | rust/rln-gifter-module/rust-lib/src/wire.rs:161-174 | folding the request callback gives the last value of every field, earlier occurrences being overwritten |
| Messages.SuccessByLast | rust/rln-gifter-module/rust-lib/src/wire.rs:198-209 | the same for the success message |
| Messages.FailureByLast | rust/rln-gifter-module/rust-lib/src/wire.rs:219-227 | the same for the failure message |
| MessageLaws.ResponseByLast | rust/rln-gifter-module/rust-lib/src/wire.rs:252-274 | folding the response callback gives the last values when every nested message decodes, and a sub-error as soon as one does not |
| MessageLaws.RequestRoundTrip | rust/rln-gifter-module/rust-lib/src/wire.rs:142-183 | decode(encode(m)) = m for every request |
| MessageLaws.SuccessRoundTrip | rust/rln-gifter-module/rust-lib/src/wire.rs:185-210 | decode(encode(m)) = m for every success message |
| MessageLaws.FailureRoundTrip | rust/rln-gifter-module/rust-lib/src/wire.rs:212-228 | decode(encode(m)) = m for every failure message |
| MessageLaws.ResponseRoundTrip | rust/rln-gifter-module/rust-lib/src/wire.rs:230-283 | decode(encode(m)) = m for every response, nested messages and absent options included |
| MessageLaws.DecodeRequestMeaning | rust/rln-gifter-module/rust-lib/src/wire.rs:157-182 | a walkable buffer decodes to a request if and only if it has an id and a commitment field, and then to the last value of each field |
| MessageLaws.DecodeResponseMeaning | rust/rln-gifter-module/rust-lib/src/wire.rs:247-282 | a walkable buffer decodes to a response if and only if id and auth_success occur and every nested message decodes |
| MessageLaws.DecodeDependsOnKnownValues | rust/rln-gifter-module/rust-lib/src/wire.rs:157-282 | buffers carrying the same values per known field decode alike |
| MessageLaws.UnknownFieldsIgnored | rust/rln-gifter-module/rust-lib/src/wire.rs:161-174 | well-formed bytes of unknown fields inserted at any field boundary leave decoding unchanged |
| MessageLaws.FieldsCommute | rust/rln-gifter-module/rust-lib/src/wire.rs:161-174 | neighbouring fields with different numbers can change places without changing a successful result |
| MessageLaws.NestedDependOnKnownValues | rust/rln-gifter-module/rust-lib/src/wire.rs:198-227 | what a nested message decodes to depends on the values of its own fields only |
| MessageLaws.NestedUnknownFieldsIgnored | rust/rln-gifter-module/rust-lib/src/wire.rs:198-227 | unknown fields inside a nested message are ignored at any field boundary |
| MessageLaws.NestedFieldsCommute | rust/rln-gifter-module/rust-lib/src/wire.rs:198-227 | neighbouring fields with different numbers inside a nested message can change places |
| Text.Utf8RoundTrip | rust/rln-gifter-module/rust-lib/src/wire.rs:126-131 | lossy decoding of the UTF-8 bytes of a string gives the string back |
| Text.HexCanonical | rust/rln-gifter-module/rust-lib/src/client.rs:41-46 | lowercased hex text is exactly what re-encoding its decoded bytes prints |
| Text.HexIgnoresCase | rust/rln-gifter-module/rust-lib/src/client.rs:44-46 | lowercasing hex text changes nothing in what it decodes to |
| Text.HexRoundTrip | rust/rln-gifter-module/rust-lib/src/server.rs:236-240 | the bytes the server prints as hex for the verifier are recovered by decoding it |
| TextLaws.HexAt | rust/rln-gifter-module/rust-lib/src/server.rs:236-240 | each byte prints as the two digits of 0123456789abcdef that its halves select |
| TextLaws.HexDecodeMeaning | rust/rln-gifter-module/rust-lib/src/client.rs:44-46 | hex text decodes if and only if its length is even and every character is one of 0-9, a-f, A-F |
| TextLaws.StripMeaning | rust/rln-gifter-module/rust-lib/src/client.rs:44-44 | every leading 0x goes, however many there are, and nothing else |
| TextLaws.LowerAlphabet | rust/rln-gifter-module/rust-lib/src/server.rs:284-284 | the capitals A to Z become the letters a to z |
| TextLaws.LowerKeepsOthers | rust/rln-gifter-module/rust-lib/src/server.rs:284-284 | no capital A to Z is left, and every character that was none stays |
| TextLaws.LowerForgetsCase | rust/rln-gifter-module/rust-lib/src/server.rs:284-284 | two texts lowercase alike if and only if they agree letter by letter up to case |
| TextLaws.TrimMeaning | rust/rln-gifter-module/rust-lib/src/auth.rs:19-19 | whitespace goes from both ends and nothing from between |
| TextLaws.TrimSplits | rust/rln-gifter-module/rust-lib/src/auth.rs:19-19 | every text is its trimmed part with whitespace before and after it |
| TextLaws.WhitespaceMeaning | rust/rln-gifter-module/rust-lib/src/server.rs:284-285 | whitespace is the 25 characters of the White_Space property |
| TextLaws.ControlMeaning | rust/rln-gifter-module/rust-lib/src/server.rs:285-285 | the control characters are the two ranges of 32 and delete |
| TextLaws.DecodeHeadMeaning | rust/rln-gifter-module/rust-lib/src/wire.rs:126-131 | lossy decoding reads the character the bytes begin with, and the replacement character only when they begin with none |
| TextLaws.BrokenMeaning | rust/rln-gifter-module/rust-lib/src/wire.rs:126-131 | a replaced sequence is a longest beginning of some character, or one byte |
| Nullifiers.LoadNullifiers | rust/rln-gifter-module/rust-lib/src/auth.rs:12-26 | the loop collects exactly the non-empty texts that are some line of the file, trimmed and lowercased; nothing for a missing file or path |
| Nullifiers.LinesMeaning | rust/rln-gifter-module/rust-lib/src/auth.rs:18-18 | a line ends at a newline, a carriage return before it is dropped, and a last line needs no newline |
| Nullifiers.KeysMeaning | rust/rln-gifter-module/rust-lib/src/auth.rs:18-23 | a key is loaded if and only if it is not empty and is some line trimmed and lowercased |
| Nullifiers.KeysLowercase | rust/rln-gifter-module/rust-lib/src/auth.rs:18-23 | no loaded key contains a capital A to Z |
| Nullifiers.NormalizeMeaning | rust/rln-gifter-module/rust-lib/src/server.rs:283-291 | surrounding whitespace goes, and what is left is accepted if and only if it is non-empty without whitespace and control characters; no capital A to Z stays |
| Nullifiers.NormalizeForgetsCase | rust/rln-gifter-module/rust-lib/src/server.rs:283-291 | nullifiers that agree letter by letter up to case are normalized alike |
| Nullifiers.KeysAppend | rust/rln-gifter-module/rust-lib/src/auth.rs:12-41 | reading a finished file with text appended is reading both |
| Nullifiers.AppendMeaning | rust/rln-gifter-module/rust-lib/src/auth.rs:30-41 | a key survives being appended and read back, whatever was in the file, if and only if it is non-empty, one line, trimmed and lowercase |
| Nullifiers.AppendStorable | rust/rln-gifter-module/rust-lib/src/auth.rs:30-41 | appending a storable key adds exactly it to what a load returns and leaves the file finished |
| Nullifiers.LoadedStorable | rust/rln-gifter-module/rust-lib/src/auth.rs:18-23 | everything a load returns is storable |
| Nullifiers.KeyStorable | rust/rln-gifter-module/rust-lib/src/server.rs:281-292 | with ASCII lowercasing, the keys of an authentication type survive a restart if and only if its name is lowercase, has no newline and does not begin with whitespace |
| Nullifiers.CollisionMeaning | rust/rln-gifter-module/rust-lib/src/server.rs:281-292 | two different types can share a key if and only if one is the other, a colon and clean text |
| Nullifiers.ColonFreeTypesNeverCollide | rust/rln-gifter-module/rust-lib/src/server.rs:281-292 | keys of colon-free types are equal if and only if type and nullifier are |
| GifterMachine.AccountedStep | rust/rln-gifter-module/rust-lib/src/server.rs:121-129 | every step keeps workers plus mounting callers equal to one when SERVING is set and zero otherwise |
| GifterMachine.AtMostOneWorker | rust/rln-gifter-module/rust-lib/src/server.rs:121-156 | over every run, with any concurrent serve calls and mount failures, there is never more than one worker, and SERVING is set exactly when one works or is being mounted |
| GifterMachine.InvStep | rust/rln-gifter-module/rust-lib/src/server.rs:108-343 | every step of serve, of a request or of a restart keeps the invariant tying memory, file and submissions |
| GifterMachine.InvRun | rust/rln-gifter-module/rust-lib/src/server.rs:108-343 | every run that keeps the environment's promises ends in the invariant |
| GifterLaws.AtMostOnce | rust/rln-gifter-module/rust-lib/src/server.rs:276-343 | over every such run no credential is submitted twice, and none the file held at first |
| GifterLaws.MemoryIsFile | rust/rln-gifter-module/rust-lib/src/server.rs:293-333 | the set in memory is what loading the file returns plus the one key reserved in flight, which is not in the file |
| GifterLaws.RestartUnobservable | rust/rln-gifter-module/rust-lib/src/server.rs:108-112 | in any run, also with serve calls pending, a restart between requests followed by serve brings back the same nullifier set |
| GifterLaws.RefusedMeaning | rust/rln-gifter-module/rust-lib/src/server.rs:292-303 | a reservation is refused if and only if its key was in the file at first or was submitted since |
| GifterLaws.RefusedOnlyIfSpent | rust/rln-gifter-module/rust-lib/src/server.rs:292-303 | with colon-free names it is refused if and only if that very credential was spent |
| GifterLaws.RefundedIsSpendable | rust/rln-gifter-module/rust-lib/src/server.rs:321-328 | rolling back leaves exactly what the file holds, without the refunded key |
| GifterLaws.HeldInMemory | rust/rln-gifter-module/rust-lib/src/server.rs:292-303 | between verdict and settlement the set is the file's keys and the reserved one, which the file has not |
| GifterLaws.NormalizedRun | rust/rln-gifter-module/rust-lib/src/server.rs:283-305 | over every run only normalized nullifiers are held or submitted |
| GifterLaws.CrashInWindowSpendsTwice | rust/rln-gifter-module/rust-lib/src/server.rs:307-311 | a crash between submission and append lets any credential be submitted twice |
| GifterLaws.LandedErrorSpendsTwice | rust/rln-gifter-module/rust-lib/src/server.rs:320-328 | an error reported for a submission that landed lets any credential be submitted twice |
| GifterConfigurations.SoundNeverTwice | rust/rln-gifter-module/rust-lib/src/server.rs:276-343 | an open gifter, or one with a nullifier path and storable types, submits no credential twice in any run that keeps the promises |
| GifterConfigurations.UnsoundSpendsTwice | rust/rln-gifter-module/rust-lib/src/server.rs:281-311 | without a path, or with a type that is not storable, any credential of that type can be submitted again after a clean restart, all promises kept |
| GifterConfigurations.ConfigurationMeaning | rust/rln-gifter-module/rust-lib/src/server.rs:79-343 | a configuration never submits a credential twice if and only if it is open, or has a path and storable types only |
| GifterServer.ClockBound | rust/rln-gifter-module/rust-lib/src/server.rs:397-423 | after n reads at least (n-1) poll intervals have passed |
| GifterServer.StopFrom | rust/rln-gifter-module/rust-lib/src/server.rs:398-423 | the first read at which the loop stops exists and is at most the 76th |
| GifterServer.FirstStopMeaning | rust/rln-gifter-module/rust-lib/src/server.rs:398-423 | the loop stops at the first read that says registered with a leaf, all before it being within the 150 seconds, or at the first one after them |
| GifterServer.AwaitConfirmation | rust/rln-gifter-module/rust-lib/src/server.rs:397-423 | one to 76 reads; a leaf is that of the last read, which says registered with it; no earlier read says so, and without a leaf no read does and the 150 seconds have passed |
| GifterServer.RegisterMembership | rust/rln-gifter-module/rust-lib/src/server.rs:376-424 | NotSubmitted with the registry's error if and only if register_member was refused; registered only with a leaf that one of the first 76 reads reports as registered, with the submitted transaction's hash and the configured account; otherwise unconfirmed, and then no read made says registered |
| GifterServer.RegisterMeaning | rust/rln-gifter-module/rust-lib/src/server.rs:376-424 | the specified registration gives that answer too |
| GifterServer.TxBytesMeaning | rust/rln-gifter-module/rust-lib/src/server.rs:386-395 | the hash reported is the reply's hex without its 0x, and empty when there is none or it is not hex |
| GifterServer.EffectiveRateMeaning | rust/rln-gifter-module/rust-lib/src/server.rs:218-221 | the rate is the smaller of the cap and what was asked for, 100 by default |
| GifterServer.VerifierSees | rust/rln-gifter-module/rust-lib/src/server.rs:236-242 | the verifier reads back the payload and commitment bytes of the request, its type, the rate and the operator's configuration |
| GifterServer.AnswerMeaning | rust/rln-gifter-module/rust-lib/src/server.rs:198-343 | for any bytes, which answer with which id, flag and message text goes back, for every way a request can end |
| GifterServer.RegistrationMeaning | rust/rln-gifter-module/rust-lib/src/server.rs:198-307 | a registration is attempted if and only if the request is well formed and its caller entitled (open gifter, or accepted by its verifier with an unspent credential), and auth_success is false if and only if it is unreadable or its caller is not |
| GifterServer.UnspentUnchanged | rust/rln-gifter-module/rust-lib/src/server.rs:292-328 | a request that submits nothing leaves file and known credentials as they were |
| GifterServer.Gifter.constructor | rust/rln-gifter-module/rust-lib/src/server.rs:56-58 | a fresh process has no configuration, no set and is not serving |
| GifterServer.Gifter.Serve | rust/rln-gifter-module/rust-lib/src/server.rs:108-131 | merges the file into memory and never forgets, replaces the configuration, and is serving with one worker unless mounting failed |
| GifterServer.Gifter.Authorize | rust/rln-gifter-module/rust-lib/src/server.rs:223-305 | makes the one verifier call, refuses as judged, and otherwise reserves exactly the credential's key unless it is known |
| GifterServer.Gifter.AppendNullifier | rust/rln-gifter-module/rust-lib/src/auth.rs:30-41 | adds the key as a finished line to the file, creating it when missing; nothing without a path |
| GifterServer.Gifter.HandleRequest | rust/rln-gifter-module/rust-lib/src/server.rs:198-343 | answer, memory, file and calls after a request are those specified for its bytes |
| GifterRefinement.JudgeRefines | rust/rln-gifter-module/rust-lib/src/server.rs:208-305 | judging a request is a snapshot step and a verdict step of the transition system |
| GifterRefinement.SettleRefines | rust/rln-gifter-module/rust-lib/src/server.rs:307-343 | registering and settling is accept and persist, or reject and rollback |
| GifterRefinement.HandleRefines | rust/rln-gifter-module/rust-lib/src/server.rs:198-343 | handling any bytes is a run of the transition system that breaks no promise, whatever the oracles answer |
| GifterLife.LifeIsRun | rust/rln-gifter-module/rust-lib/src/server.rs:79-343 | any sequence of requests, repeated serve calls and restarts is a run of the transition system that keeps the promises |
| GifterLife.AnswersGiven | rust/rln-gifter-module/rust-lib/src/server.rs:135-183 | in a life every request is answered, makes its calls and leaves the shared state as the handler says for the state it meets, and nothing else is answered |
| GifterLife.NoCredentialBuysTwo | rust/rln-gifter-module/rust-lib/src/server.rs:79-343 | over every such life each credential is submitted at most once, and between requests the memory is the file |
| GifterLife.RestartInvisible | rust/rln-gifter-module/rust-lib/src/server.rs:108-119 | a restart with the current configuration anywhere in a life leaves every later answer, call and submission, the memory and the file as they were |
| GifterInterleaving.VerdictStep | rust/rln-gifter-module/rust-lib/src/server.rs:223-305 | the verdict and the reservation are one step on the set as it is by then |
| GifterInterleaving.InterruptedRefines | rust/rln-gifter-module/rust-lib/src/server.rs:198-343 | a request into which serve steps of other threads fall, between snapshot, verdict, registration and settlement, is a run of the transition system |
| GifterInterleaving.UninterruptedIsHandle | rust/rln-gifter-module/rust-lib/src/server.rs:198-343 | without interruptions that is the specified handler |
| GifterInterleaving.LivedIsRun | rust/rln-gifter-module/rust-lib/src/server.rs:79-343 | a life with serve steps anywhere is a run of the transition system that keeps the promises |
| GifterInterleaving.InterruptionsBuyNothing | rust/rln-gifter-module/rust-lib/src/server.rs:79-343 | over every such life each credential is submitted at most once and between requests the memory is the file |
| KeycardVector.ReplyToGifter | rust/keycard-auth-module/rust-lib/src/lib.rs:34-57 | a keycard-attestation request of the gifter is judged by the payload and commitment bytes it carries, or answered with the configuration error |
| KeycardVector.JudgementMeaning | rust/keycard-auth-module/rust-lib/src/lib.rs:48-56 | accepted if and only if the payload parses and an identity key and a trusted CA key make it genuine at the hash of logos/rln/keycard-attest/1 and the commitment |
| KeycardVector.RepliesWithError | rust/keycard-auth-module/rust-lib/src/lib.rs:35-38 | an error instead of a verdict if and only if the type is another, or the trusted list is unreadable or empty |
| KeycardVector.AcceptedNullifier | rust/keycard-auth-module/rust-lib/src/lib.rs:48-56 | whatever is accepted parses, and is accepted with the nullifier of its identity key |
| GifterCards.CardJudged | rust/rln-gifter-module/rust-lib/src/server.rs:223-305 | with the keycard vector, a request is granted if and only if its attestation verifies, for the credential of its card |
| GifterCards.OneMembershipPerCard | rust/rln-gifter-module/rust-lib/src/server.rs:276-343 | of two requests of a life with attestations of one identity key at most one is submitted, whatever their commitments |
| GifterCards.MintedIsGranted | rust/keycard-auth-module/rust-lib/src/lib.rs:34-57 | a minted attestation bound to the requested commitment is registered if and only if its card's key is not known |
| GifterCards.UnspentCardIsGranted | rust/rln-gifter-module/rust-lib/src/server.rs:292-307 | in a life, that is if and only if the key was neither in the file at first nor submitted since |
| GifterClient.PreparedFields | rust/rln-gifter-module/rust-lib/src/client.rs:41-102 | the prepared request carries the normalized commitment, the type and the rate, and its hex is what the server will print |
| GifterClient.PreparedPayload | rust/rln-gifter-module/rust-lib/src/client.rs:58-92 | without a type the payload is empty; otherwise it is the given or the produced hex, never both, and the verifier sees it lowercased and unprefixed |
| GifterClient.PrepareMeaning | rust/rln-gifter-module/rust-lib/src/client.rs:41-102 | a request is sent if and only if the commitment is non-empty hex and the payload is absent together with the type, or given or produced as hex, but not both; its id is gift- and the first 16 digits |
| GifterClient.PrepareErrors | rust/rln-gifter-module/rust-lib/src/client.rs:41-92 | which unusable arguments give which error |
| GifterClient.FinishMeaning | rust/rln-gifter-module/rust-lib/src/client.rs:115-155 | for any bytes, the client succeeds if and only if they decode to an answer with its own id, auth_success and a membership, which it returns; another id is the mismatch error, and the other failures give the gifter's text in the order of preference |
| GifterClient.ClientGetsWhatServerConfirmed | rust/rln-gifter-module/rust-lib/src/client.rs:94-156 | with bytes delivered unchanged the client returns leaf L if and only if the server confirmed L, and otherwise the server's message |
| GifterClient.CallsAgree | rust/rln-gifter-module/rust-lib/src/server.rs:215-307 | the verifier sees the client's normalized commitment and payload at the rate that is then registered, min(cap, requested or 100), a verifier is called if and only if the commitment has 32 bytes and the type is configured, the registry if and only if a registration is attempted, and nothing is registered unless the gifter is open or its verifier accepted |
| Cbc.AppendPaddingRaw | crates/keycard-client/src/crypto.rs:54-60 | pushes 0x80 and the zeros that complete the block |
| Cbc.RemovePaddingLoop | crates/keycard-client/src/crypto.rs:62-71 | the backward scan is the specified removal |
| Cbc.RemovePadding | crates/keycard-client/src/crypto.rs:62-71 | what is left is the part before the last 0x80, or nothing when there is none |
| Cbc.RemoveAppended | crates/keycard-client/src/crypto.rs:54-71 | padding is removed exactly, also from data containing or ending in 0x80 and zeros |
| Cbc.Xor16Loop | crates/keycard-client/src/crypto.rs:73-79 | the loop is the bytewise exclusive or |
| Cbc.Xor16Bits | crates/keycard-client/src/crypto.rs:73-79 | each bit is set if and only if exactly one of the two is |
| Cbc.EncryptRaw | crates/keycard-client/src/crypto.rs:81-92 | the loop over blocks is chained CBC encryption |
| Cbc.DecryptRaw | crates/keycard-client/src/crypto.rs:94-106 | the loop over blocks is chained CBC decryption |
| Cbc.EncryptedBlock | crates/keycard-client/src/crypto.rs:81-92 | each output block is the cipher of its input block xored with the output block before it, or the IV |
| Cbc.DecryptedBlock | crates/keycard-client/src/crypto.rs:94-106 | each output block is the deciphered input block xored with the input block before it, or the IV |
| Cbc.DecryptEncrypted | crates/keycard-client/src/crypto.rs:81-106 | CBC decryption inverts CBC encryption for every IV and every invertible cipher |
| Cbc.EncryptDataRaw | crates/keycard-client/src/crypto.rs:108-111 | pads and encrypts as specified |
| Cbc.DecryptDataRaw | crates/keycard-client/src/crypto.rs:113-116 | decrypts and removes the padding as specified |
| Cbc.DataRoundTrip | crates/keycard-client/src/crypto.rs:54-116 | decrypt_data(encrypt_data(d)) = d for every byte string, IV and invertible cipher |
| Cbc.CalculateMac | crates/keycard-client/src/crypto.rs:118-127 | takes the specified block; the slice is always in range |
| Cbc.EncryptAppend | crates/keycard-client/src/crypto.rs:81-92 | encrypting a concatenation continues from the chaining value of the first part |
| Cbc.MacIsChain | crates/keycard-client/src/crypto.rs:118-127 | the MAC is the zero-IV CBC chaining value after meta and all complete blocks of the data, plain CBC-MAC for aligned data |
| SecureChannel.SerializeRaw | crates/keycard-client/src/apdu.rs:26-36 | pushes header, length byte and data, and Le as specified |
| SecureChannel.SerializeMeaning | crates/keycard-client/src/apdu.rs:26-36 | header, then length modulo 256 and data unless it is empty, then Le if there is one |
| SecureChannel.ParseMeaning | crates/keycard-client/src/apdu.rs:39-46 | the last two bytes are the status word, the rest the data; shorter answers are empty with status 0 |
| SecureChannel.Keycard.constructor | crates/keycard-client/src/client.rs:75-90 | a connected card is closed and unpaired with zero keys |
| SecureChannel.Keycard.Select | crates/keycard-client/src/client.rs:151-154 | selecting sets the new secret and closes the channel |
| SecureChannel.Keycard.Pair | crates/keycard-client/src/client.rs:179-180 | pairing sets index and key |
| SecureChannel.Keycard.Transmit | crates/keycard-client/src/client.rs:93-98 | sends the serialized command and parses an answer that fits the buffer |
| SecureChannel.Keycard.SendSc | crates/keycard-client/src/client.rs:100-132 | result and IV after the call, also after a failure, are those of the specified exchange; a closed channel is transparent |
| SecureChannel.SealMeaning | crates/keycard-client/src/client.rs:101-113 | what is sent is the MAC chained over the 16-byte header and the encrypted data, and then that data; the MAC is the next IV |
| SecureChannel.OpenMeaning | crates/keycard-client/src/client.rs:118-131 | an answer is taken if and only if its status is 0x9000, its length allows it and its first block is the MAC of the rest; only then does the IV move |
| SecureChannel.TransmitMeaning | crates/keycard-client/src/client.rs:93-98 | an exchange fails without an answer or with one over 1024 bytes, and otherwise opens what was parsed |
| SecureChannel.Keycard.OpenSecureChannel | crates/keycard-client/src/client.rs:184-207 | derives the session from the card's salt and IV, opens, authenticates over it, and leaves the channel as it was when the card refuses |
| SecureChannel.DeriveMeaning | crates/keycard-client/src/crypto.rs:41-52 | encryption key and then MAC key are the two halves of SHA-512 of secret, pairing key and the 32 bytes of salt, the next 16 bytes are the IV |
| SecureChannel.OpeningBytes | crates/keycard-client/src/client.rs:185-202 | the bytes of the opening command and the fields of the authenticating one |
| SecureChannel.OpeningMeaning | crates/keycard-client/src/client.rs:184-207 | a session begins if and only if the card answers 0x9000 with at least 48 bytes, and opening succeeds only when the authentication does too |
| SecureChannel.OpensWithMirror | crates/keycard-client/src/client.rs:195-206 | a card that derives the same keys reads the challenge, and the client ends in the card's session |
| SecureChannel.LengthByteExact | crates/keycard-client/src/client.rs:108-108 | the length byte that is MACed is the true length if and only if the plaintext has at most 223 bytes |
| SecureChannel.CardReceives | crates/keycard-client/src/client.rs:101-113 | the mirror card reads the command back if and only if it has at most 223 bytes |
| SecureChannel.ClientOpens | crates/keycard-client/src/client.rs:118-131 | the client opens every reply of the mirror, which fits the buffer if and only if its payload has at most 991 bytes |
| SecureChannel.ExchangeSynchronized | crates/keycard-client/src/client.rs:100-132 | an exchange delivers both payloads and leaves the IVs equal if and only if both lengths are within their bounds |
| SecureChannel.RunSynchronized | crates/keycard-client/src/client.rs:100-132 | over every run of deliverable exchanges both sides agree and every command and answer arrives intact |
| Tlv.FindTag | crates/keycard-attest/src/attest.rs:74-89 | the loop is the specified search, within the buffer |
| Tlv.PrintMeaning | tools/mint_attest.py:163-168 | a printed element is its tag, the shortest length form and the value |
| Tlv.FindPrinted | crates/keycard-attest/src/attest.rs:59-89 | searching printed elements finds value and full bytes of the first one with the tag, or fails when there is none |
| Tlv.LongLenMeaning | crates/keycard-client/src/apdu.rs:74-83 | n length octets, for any n, give their big-endian value modulo 2^64, and nothing if and only if the buffer ends before |
| Tlv.ReadApduLength | crates/keycard-client/src/apdu.rs:68-85 | reads a short length as it is and a long one as the big-endian value of its octets modulo 2^64, inside the buffer |
| Tlv.FindApduTag | crates/keycard-client/src/apdu.rs:48-66 | the second parser's loop is the specified search, for a build with overflow checks |
| Tlv.PanickedMeaning | crates/keycard-client/src/apdu.rs:57-63 | with overflow checks it panics if and only if it comes to an element whose end leaves 64 bits |
| Tlv.WrappingAgrees | crates/keycard-client/src/apdu.rs:48-66 | without them it ends with the same result whenever the checked search does not panic |
| Tlv.WrappingMayLoop | crates/keycard-client/src/apdu.rs:57-63 | and otherwise may never end: on a ten-byte input it returns to index 0 forever |
| Tlv.ParsersAgree | crates/keycard-client/src/apdu.rs:48-85 | the verifier's parser succeeds if and only if the card client's does over short, 0x81 and 0x82 lengths, and then with the same value |
| Groups.Multiply | tools/mint_attest.py:47-54 | double-and-add returns the k-fold sum in every abelian group |
| Groups.TimesTimes | tools/mint_attest.py:47-54 | the (a*b)-fold sum is the a-fold sum of the b-fold sum |
| Modular.ExtendedGcdLaw | tools/mint_attest.py:28-29 | the extended Euclidean algorithm returns a common divisor and its Bezout coefficients |
| Modular.InvLaw | tools/mint_attest.py:28-29 | the inverse times the number is one modulo a prime |
| Curves.TimesMod | tools/mint_attest.py:76-94 | multiples depend on the scalar modulo the order only |
| Curves.TimesInv | tools/mint_attest.py:94-94 | multiplying by a scalar and by its inverse gives the point back |
| Curves.NonzeroMultiple | tools/mint_attest.py:57-63 | no scalar in 1..N-1 gives the point at infinity, so every public key exists |
| Curves.TimesComplement | tools/mint_attest.py:98-100 | the (N-s)-fold multiple is the negation of the s-fold |
| BigEndian.FromToBE | tools/mint_attest.py:63-63 | reading back the fixed-width bytes of a number that fits gives the number |
| BigEndian.ToFromBE | tools/mint_attest.py:73-73 | bytes read as a number fit their width and print as themselves |
| Ecdsa.TryNonce | tools/mint_attest.py:76-101 | one round succeeds if and only if k from hash(priv, prehash, ctr), r and s pass the four tests, and gives that r, the low-S flip of that s and its recovery id |
| Ecdsa.SignPrehash | tools/mint_attest.py:71-101 | the signature is made with the first counter whose k from hash(priv, prehash, ctr) passes the four tests; every smaller one fails one; None only if all 2^32 do |
| Ecdsa.AttemptMeaning | tools/mint_attest.py:76-101 | the specified attempt succeeds and answers in that way |
| Ecdsa.SignFromMeaning | tools/mint_attest.py:71-101 | the specified loop returns the first usable counter's signature |
| Ecdsa.NonceEquation | tools/mint_attest.py:94-94 | s = k^-1 (z + r d) gives s·kG = zG + r·dG |
| Ecdsa.AttemptSolves | tools/mint_attest.py:88-101 | what is returned is in range, low-S, and solves the signing equation at the point its recovery id names |
| Ecdsa.SignSolves | tools/mint_attest.py:71-101 | the same for the whole loop |
| Ecdsa.VerifyMeaning | crates/keycard-attest/src/attest.rs:134-136 | a signature verifies if and only if r and s lie strictly between 0 and N and the point solving the signing equation is not at infinity and has x coordinate r modulo N |
| Ecdsa.SolvedVerifies | crates/keycard-attest/src/attest.rs:134-136 | every solution of the signing equation verifies |
| Ecdsa.FlipSolution | tools/mint_attest.py:98-100 | replacing s by N-s negates the nonce point and keeps the equation |
| Ecdsa.FlipVerifies | crates/keycard-attest/src/attest.rs:131-136 | normalize_s changes no verdict of plain ECDSA, and makes the low-S verifier give it |
| Ecdsa.RecoverSolved | crates/keycard-attest/src/attest.rs:118-124 | recovery from a signed prehash, through the low-S flip, returns exactly the signer's key |
| Ecdsa.RecoverMeaning | crates/keycard-attest/src/attest.rs:118-124 | recovery returns a key if and only if the point named by r and the recovery id, x reduced or not, solves the signing equation under it, for a low-S signature in range; and then the signature verifies |
| Der.DecodeEncoded | tools/mint_attest.py:104-112 | the strict reader inverts the printer for every signature in range |
| Der.EncodeMeaning | tools/mint_attest.py:104-112 | the two numbers in their shortest signed form, each with its length, inside a sequence with its own |
| Der.DecodeCanonical | crates/keycard-attest/src/attest.rs:103-105 | the reader accepts nothing but what the printer prints |
| Attestation.CompressInverse | tools/mint_attest.py:61-63 | a compressed key decompresses to its point |
| Attestation.DecompressMeaning | crates/keycard-attest/src/attest.rs:129-130 | bytes are the key of a point if and only if they are its compressed form |
| Attestation.CompressInjective | crates/keycard-attest/src/attest.rs:125-128 | equal compressed keys are equal points, so the trusted list compares keys |
| Attestation.ParseTemplate | crates/keycard-attest/src/attest.rs:93-107 | parsing a printed template finds the certificate's parts and the signature |
| Attestation.ChallengeMeaning | crates/keycard-attest/src/attest.rs:41-46 | the challenge is the hash of the text logos/rln/keycard-attest/1 and the commitment |
| Attestation.MintedFields | tools/mint_attest.py:175-190 | what is minted, byte by byte: both keys, the certificate over the hash of the identity key, the signature over that challenge, the template, and the nullifier |
| Attestation.MintParses | tools/mint_attest.py:175-190 | a minted attestation parses to the identity key and both signatures it was made of |
| Attestation.MintedIsAccepted | crates/keycard-attest/src/attest.rs:93-138 | for all keys and every commitment a minted attestation is accepted for its CA at the hash of logos/rln/keycard-attest/1 and the commitment, with nullifier keccak256 of the identity key |
| Attestation.AcceptedMeaning | crates/keycard-attest/src/attest.rs:113-138 | acceptance holds if and only if the identity key decompresses and its challenge signature verifies, and a trusted CA key solves the certificate's signing equation at the point its recovery id names; the result is the nullifier of the identity key |
| Keccak.BitRol | tools/mint_attest.py:116-117 | bit z of a rotation by n is bit z-n modulo 64 |
| Keccak.ThetaBit | tools/mint_attest.py:123-125 | every bit of a theta lane is that of the theta map of section 3.2.1 of FIPS 202 |
| Keccak.ThetaStep | tools/mint_attest.py:123-125 | the column parities mixed into the lanes are the theta map |
| Keccak.MovedBit | tools/mint_attest.py:126-130 | the lane moved to a place holds the bits rho and pi put there |
| Keccak.RotateAndMove | tools/mint_attest.py:126-130 | the fused in-place loop equals rho followed by pi on every state |
| Keccak.ChiBit | tools/mint_attest.py:131-134 | every bit of a chi lane is that of the chi map |
| Keccak.ChiStep | tools/mint_attest.py:131-134 | the in-place row loop is the chi map |
| Keccak.NextIsRegister | tools/mint_attest.py:135-137 | one step of the byte register is one step of the linear feedback register of section 3.2.5 of FIPS 202, and its bit 1 is the next output |
| Keccak.IotaStep | tools/mint_attest.py:135-138 | the inner loop xors in exactly the round constant and advances the register by seven |
| Keccak.KeccakF | tools/mint_attest.py:120-139 | the lane permutation is the 24-round permutation of section 3.3 of FIPS 202 |
| Keccak256.PadMessage | tools/mint_attest.py:144-146 | the padding statements build the padded message |
| Keccak256.PaddedBits | tools/mint_attest.py:144-146 | the padded bytes are the message bits followed by pad10*1 of section 5.1 of FIPS 202 |
| Keccak256.AbsorbBlock | tools/mint_attest.py:149-152 | absorbing 17 lanes is xoring the block into the rate and permuting |
| Keccak256.AbsorbAll | tools/mint_attest.py:147-152 | the loop over blocks absorbs the message as section 4 of FIPS 202 does |
| Keccak256.SqueezedBits | tools/mint_attest.py:153-156 | the four printed lanes are the first 256 bits of the state |
| Keccak256.Hash | tools/mint_attest.py:142-156 | for every message the result is the 256-bit output of the sponge with rate 1088 |
| Keccak256.DigestBits | crates/keycard-attest/src/attest.rs:51-57 | the digest is the one byte string whose bits are the sponge's output |

## Left out

- Curve internals: `_add` and the library's point arithmetic are a group parameter with stated laws; that secp256k1 satisfies them is not proved here.
- AES, SHA-256 and SHA-512: a pair of mutually inverse block functions and arbitrary functions; nothing is claimed about collisions or forgeries.
- Library code whose source is not part of this model (DER decoding, ECDSA verification and recovery, compressed points, Keccak in the verifier, hex, UTF-8): modelled from ITU-T X.690, SEC 1, FIPS 202 and the documented behaviour, without the text of its error messages.
- Ecdsa.SignPrehash: termination of the retry loop depends on hash outputs; the loop is bounded by the four-byte counter, after which Python raises and the model returns None.
- GifterServer.Gifter.Serve: starts from parsed arguments and takes whether mounting succeeds as a parameter; interleavings of several calls are in GifterMachine and GifterInterleaving.
- GifterServer.AwaitConfirmation: assumes a clock that does not go back and sleeps of at least the poll interval; the bound on reads, not the client's real-time budget, is what is proved.
- Nullifiers.LoadNullifiers: a file is text; unreadable or non-UTF-8 files, partial writes and failed appends are not modelled.
- Nullifiers.KeyStorable: lowercase is ASCII lowercase; a name with another uppercase letter counts as lowercase, and the source stores another key for it. The same holds for every use of lowercasing.
- Tlv.FindApduTag: the loop is that of a build with overflow checks; a build without them, whose search may not end, is the step function WrappingSearch.
- Wire.ReadField: 64-bit platform; buffers have at most isize::MAX bytes.
- Stream handling in the server: accept, base64, size limit, writing and releasing; a request is its bytes and a response its message.
- JSON: argument records, verdicts and replies are taken as already parsed.
- Verifier, registry, provider and clock: oracles, arbitrary functions of the call's arguments or of the number of the read.
- Card connection, key agreement, the pairing and PIN dialogues and key export; the agreed secret, the pairing key, AES by key and SHA-512 are parameters.
- The capture and address modules, and the routing of verifier modules: thin wrappers; of the keycard verifier the judgement is modelled and its trusted list is a parameter.
