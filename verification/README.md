# Verified model of the MAIP protocol core

MAIP is a protocol of federated agents that identify, message and govern each other. This
project models the self-contained algorithms and state machines of its TypeScript packages
in Dafny and proves what they promise:

- **Canonical text and signatures** (`Canonical`, `CanonicalParse`, `CanonicalForms`,
  `CanonicalShortest`, `Utf8`, `KeyOrder`, `SignedDocuments`): the printer under every signature, a
  parser that reads its text back and other spellings of strings and numbers too, the canonical text as
  the shortest of them, and what it means for a document to verify.
- **Base58, DIDs and frames** (`Radix`, `Base58`, `Framing`): big-number radix conversion with
  leading zeros, identifiers built on it, and length-prefixed frames on a byte stream.
- **The store** (`JsonStores`): an insertion-ordered store of *references*, whose `filter` and
  `getById` hand out the stored objects, which the handlers then change in place.
- **Ledgers** (`AttentionTokens`, `KnowledgeCredits`): spending tokens that expire, and credit
  accounts against the log of transactions.
- **Gossip** (`Gossip`): anomaly reports that nodes create, forward and accept.
- **Governance** (`Governance`, `GuardianTransfer`, `GuardianAuthority`): isolation, appeal and
  vote; three-party transfers; guardian commands interleaved with autonomy upgrades.
- **Logs, mailboxes, replicas** (`AuditLog`, `Relay`, `Backup`): the hash-chained log, the
  store-and-forward relay, and versioned backup shards.
- **Rates and shares** (`RateLimit`, `SocialHealth`): the fixed-window limiter over whole traces,
  and the Herfindahl index of an agent's contacts.

Each handler that changes objects in place is a method of a class over `JsonStores` (or over
fields and maps, where the source has those). Its `ensures` equates the new state and the
answer with a function of the old state; the theorems are lemmas about that function, mostly
over every run of operations.

Modelling choices. Time is an integer argument, read once per call; where it matters it does not
go back. Identifiers are arguments, assumed new in runs where the source draws them; so are those
that it takes from the clock, as automatic isolation does
(packages/maip-node/src/handlers/messages-core.ts:166), where two drawn in one millisecond would
be one and the second record replace the first. Strings that are printed in canonical text are
sequences of UTF-16 code units; Base58 works on Dafny strings, so the character that an invalid
text is refused for is a whole code point, where the source names a code unit. JSON objects are
sequences of key and value, not maps, so that being insensitive to order is something to prove.
Amounts are integers, scores are reals. Ed25519 and SHA-256 are parameters, with the assumption
each theorem needs (a signature verifies; it binds its bytes; the digest has no collisions) in its
`requires`.

## What turned out different from what is said or expected

- The limiter allows 30 messages per window, but any 60 seconds can meet two windows. The sharp
  bound is 59, not 60, because a window opens with a message: `RateLimit.AtMost59PerMinute`, and
  `RateLimit.The59AreReached` shows that 59 get through.
- The specification (spec/01-identity.md:294) orders keys by code point; the code orders by UTF-16
  code unit, as section 3.2.3 of RFC 8785 asks. `KeyOrder.CodeUnitOrderIsNotCodePointOrder` gives
  two keys on which the two differ, and `KeyOrder.KeysSortAsSpecifiedIff` says for which keys they
  agree: those of which no two first differ in a surrogate and a unit above the surrogates. Keys
  are taken to be Unicode text; a lone surrogate has no place in the specified order.
- A member whose value is undefined is signed as null, so leaving it out changes the text
  (`SignedDocuments.UndefinedMattersIff`).
- The audit log's comment says that any tampering is detectable. Dropping entries at the end is
  not, as every prefix of a log verifies; nor is rewriting entries and rechaining all after them.
  `AuditLog.RechainedTamperingPasses` says exactly what passes. Only the hash of the last entry
  tells (`AuditLog.TamperingShowsInTheHead`).
- A transfer of credits to oneself by a DID without a stored account loses the debit, because
  sender and receiver are then two objects. `KnowledgeCredits.TransferKeepsBooks` says exactly
  when; with amounts that are not negative it cannot happen.
- Awards are logged as given by "system", and nobody is debited for them. An account of that name
  agrees with its log exactly when the awards come to nothing (`KnowledgeCredits.SystemAgreesIff`;
  `KnowledgeCredits.SystemDisagrees` is a run after which it does not).
- A gossip node that accepts a report keeps the last 999 of the others (`Gossip.AcceptanceForgets`),
  so it can accept one a second time, and a copy can cross a node twice. `Gossip.AtMostOnceIff`
  gives the sharp bound: it never happens as long as the whole network creates at most 1000
  reports, and with 1001 it can (`Gossip.AcceptedTwice`).
- A DID can have two active isolations: it may be flagged again while under appeal, and that
  appeal may then be turned down (`Governance.FlaggedTwice`). `Governance.OneActiveIff` says
  exactly which operations do it.
- From autonomy level 0 and 1 the guardian's approval alone decides on an upgrade, whatever the
  metrics say (`GuardianAuthority.UpgradeRaisesByOne`, `GuardianAuthority.ApprovalAloneSuffices`);
  from level 2 the metrics alone do. At level 3 a lockdown can begin and never end.
- A guardian transfer in which one DID has all three roles can never complete, only expire, and it
  is the only kind that nobody is left to answer (`GuardianTransfer.OnePartyOnlyExpires`,
  `GuardianTransfer.SomebodyCanAnswerIff`); `GuardianTransfer.OnePartyCanInitiate` makes one.
- Peers without any message make the unrounded diversity one, above its bound: the bound holds if
  and only if there is a message (`SocialHealth.DiversityBounds`, `SocialHealth.SilentPeerIsDiverse`).
- Assessments look at a window of configurable length, and what is older than 30 days is dropped
  at every recording. `SocialHealth.KeptSufficesIff` says when a window shows all that was
  recorded in it: always up to 30 days (`SocialHealth.ThirtyDaysSuffice`), and not always beyond
  (`SocialHealth.LongerWindowsLose`).
- A spend of tokens that reports failure may still have removed tokens, all of amount zero
  (`AttentionTokens.FailedSpendMayRemove`); `AttentionTokens.FailedSpendChangesNothingIff` says
  exactly when it has not.

## Model

| member | source | states |
|---|---|---|
| CanonicalForms.CanonicalTextIdentifies | packages/maip-core/src/crypto/signing.ts:18-39 | two values have the same canonical text if and only if they are equal up to the order of members at every depth, undefined counting as null |
| CanonicalForms.ParseCanonical | packages/maip-core/src/crypto/signing.ts:18-39 | an independent parser reads the canonical text of a value, and all of it, as the value with members sorted at every depth |
| CanonicalForms.CanonicalIsNormalPrinted | packages/maip-core/src/crypto/signing.ts:27-36 | sorting keys and then looking values up prints the value whose members were sorted first, at every depth |
| CanonicalForms.SameIffNormal | packages/maip-core/src/crypto/signing.ts:15-16 | equality up to member order, defined without sorting, is equality of the key-sorted values |
| CanonicalParse.ParsePrint | packages/maip-core/src/crypto/signing.ts:18-39 | the parser returns every printed value and leaves the text after it, if that does not continue a number |
| CanonicalShortest.CanonicalIsTheShortest | packages/maip-core/src/crypto/signing.ts:18-39 | the canonical text of a value is the one shortest legal text (no control character and no lone surrogate in a string) that the parser reads as the key-sorted value; the parser knows every escape of a string, with hexadecimal digits in lower case, and no white space |
| Utf8.EncodeIsInjective | packages/maip-core/src/crypto/signing.ts:48 | UTF-8 encoding loses nothing on texts whose surrogates are paired |
| Utf8.EncodedPointIsUtf8 | packages/maip-core/src/crypto/signing.ts:48 | a code point has the bytes of section 3 of RFC 3629: as few as will do, the first one telling how many, six bits in each that follows |
| Utf8.PairsAreRead | packages/maip-core/src/crypto/signing.ts:48 | each code point beyond 16 bits is read off its surrogate pair |
| Utf8.CanonicalWellPaired | packages/maip-core/src/crypto/signing.ts:20-36 | canonical texts have only paired surrogates: lone ones are escaped, and no concatenation pairs or splits any |
| SignedDocuments.MessageIdentifies | packages/maip-core/src/crypto/signing.ts:98-118 | two documents have the same bytes to sign if and only if, signatures aside, they are equal up to member order |
| SignedDocuments.ReorderedDocumentVerifies | packages/maip-core/src/crypto/signing.ts:98-119 | verifyDocument accepts every reordering, at any depth, of what signDocument returned |
| SignedDocuments.OnlyReorderingsVerify | packages/maip-core/src/crypto/signing.ts:112-119 | when signatures bind their bytes, the documents that verify with a given signature are exactly the reorderings of the signed one |
| SignedDocuments.DidVerifiesReorderings | packages/maip-core/src/crypto/signing.ts:79-90 | with nothing but the signer's DID, verifyWithDid accepts the signature for reorderings of the payload, and for nothing else when signatures bind |
| SignedDocuments.UndefinedIsNotAbsent | packages/maip-core/src/crypto/signing.ts:19 | an undefined member prints as null, and not as a missing member |
| SignedDocuments.UndefinedMattersIff | packages/maip-core/src/crypto/signing.ts:19 | leaving undefined members out of an object keeps its text if and only if it has none |
| SignedDocuments.WordsSpellTheirNames | packages/maip-core/src/crypto/signing.ts:19-36 | the code units of the printed words and punctuation, and of the member `signature` that is left out, spell what they are called |
| KeyOrder.OrdersAgreeIff | packages/maip-core/src/crypto/signing.ts:28 | two keys are ordered by code unit as by code point if and only if they do not first differ in a surrogate and a unit above the surrogates |
| KeyOrder.KeysSortAsSpecifiedIff | packages/maip-core/src/crypto/signing.ts:28 | an object's keys are sorted in the specified order if and only if no two of them clash so; keys without surrogates, or without units above them, never do |
| KeyOrder.CodeUnitOrderIsNotCodePointOrder | packages/maip-core/src/crypto/signing.ts:28 | two keys whose order by code unit is not the specified order by code point |
| Radix.RebaseRoundTrip | packages/maip-core/src/crypto/base58.ts:16-37 | converting digits between any two bases and back, with leading zeros carried over one for one, is the identity |
| Radix.RebaseKeeps | packages/maip-core/src/crypto/base58.ts:16-37 | conversion of digits keeps the number they write and the count of leading zeros |
| Base58.DecodeEncode | packages/maip-core/src/crypto/base58.ts:13-73 | decoding an encoding returns the bytes, for every byte string, leading zeros included |
| Base58.EncodeDecode | packages/maip-core/src/crypto/base58.ts:13-73 | decoding succeeds if and only if all characters are letters of the alphabet, and encoding the result returns the string |
| Base58.EncodeIsInjective | packages/maip-core/src/crypto/base58.ts:13-38 | distinct byte strings have distinct encodings |
| Base58.EncodedLength | packages/maip-core/src/crypto/base58.ts:13-38 | n bytes encode to at least n and at most 11n/8 characters, rounded up |
| Base58.AlphabetIsBitcoins | packages/maip-core/src/crypto/base58.ts:7 | the alphabet is, in order, the 58 digits and letters other than 0, O, I and l |
| Base58.EncodeWritesTheNumber | packages/maip-core/src/crypto/base58.ts:13-38 | an encoding writes, in base 58, the number that the bytes write in base 256, with one leading 1 for every leading zero byte |
| Base58.RefusedForTheFirst | packages/maip-core/src/crypto/base58.ts:54-58 | a text that is refused is refused for its first character outside the alphabet |
| Base58.EncodeBase58 | packages/maip-core/src/crypto/base58.ts:13-38 | the loops over zeros, number and remainders compute the base conversion that the bijection is proved of |
| Base58.DecodeBase58 | packages/maip-core/src/crypto/base58.ts:43-73 | the decoding loops compute the reverse conversion, or report the first character that is no letter |
| Base58.DidRoundTrip | packages/maip-core/src/crypto/keys.ts:65-77 | the key read from a DID is the key it was made of, for keys of any length |
| Base58.ValidDidsAreKeys | packages/maip-core/src/crypto/keys.ts:82-90 | a string is a valid DID if and only if it is the DID of some 32-byte key |
| Base58.DidsIdentifyKeys | packages/maip-core/src/crypto/keys.ts:65-67 | distinct keys have distinct DIDs; a 32-byte key is 32 to 44 characters |
| Framing.AcceptedIffStartsWithFrame | packages/maip-transport-p2p/src/stream-utils.ts:72-86 | bytes are accepted with a payload if and only if it is at most 1 MiB and the bytes start with its frame |
| Framing.AcceptedStreams | packages/maip-transport-p2p/src/stream-utils.ts:59-86 | a stream of chunks is accepted if and only if its bytes start with a complete frame of legal length |
| Framing.ReadWhatWasWritten | packages/maip-transport-p2p/src/stream-utils.ts:18-90 | however a frame is cut into chunks, empty ones included, reading returns its payload |
| Framing.StrictPrefixRefused | packages/maip-transport-p2p/src/stream-utils.ts:59-84 | every strict prefix of a frame is refused; once the header is there, with what is missing |
| Framing.FrameIsBigEndian | packages/maip-transport-p2p/src/stream-utils.ts:26-33 | a frame is four bytes that write the length, the most significant first, and the payload |
| Framing.RefusalsIff | packages/maip-transport-p2p/src/stream-utils.ts:59-84 | which streams are refused as empty, too short, too large or incomplete, and with what numbers, each if and only if |
| Framing.WriteLengthPrefixed | packages/maip-transport-p2p/src/stream-utils.ts:18-36 | filling the frame buffer gives the big-endian length and then the payload, or an error above 1 MiB |
| Framing.ReadLengthPrefixed | packages/maip-transport-p2p/src/stream-utils.ts:49-86 | accumulating chunks in one buffer and cutting out the payload answers as the specification of the stream's bytes does, error by error |
| JsonStores.JsonStore.GetById | packages/maip-node/src/stores/json-store.ts:43-45 | returns the stored reference whose record has the id, or nothing if none has |
| JsonStores.JsonStore.Add | packages/maip-node/src/stores/json-store.ts:47-55 | replaces the record with this id in its place or appends it, keeps ids distinct, also while found objects are being changed |
| JsonStores.JsonStore.Remove | packages/maip-node/src/stores/json-store.ts:65-71 | removes the record with this id and keeps all others in order |
| JsonStores.JsonStore.Filter | packages/maip-node/src/stores/json-store.ts:73-75 | returns the stored references themselves, of exactly the matching records in store order |
| JsonStores.PutMembers | packages/maip-node/src/stores/json-store.ts:47-55 | adding a record leaves exactly it and the records with other ids |
| JsonStores.WithoutIsFilter | packages/maip-node/src/stores/json-store.ts:65-71 | removing by id is filtering by id when ids are distinct |
| AttentionTokens.SpendLeavesBalance | packages/maip-node/src/handlers/economy-core.ts:58-96 | a spend takes min(amount, live balance) and says so; at every later time only that part is missed which tokens expiring before then could not cover |
| AttentionTokens.SpendIsOptimal | packages/maip-node/src/handlers/economy-core.ts:64-79 | at every later time the balance left is at least what any other way of taking the same total from live tokens leaves |
| AttentionTokens.SpendTakesInOrder | packages/maip-node/src/handlers/economy-core.ts:64-79 | of the live tokens in order of expiry, those that fit into what is left to pay go, the next one pays just the rest, and later ones stay |
| AttentionTokens.SortIsStable | packages/maip-node/src/handlers/economy-core.ts:64-66 | tokens that expire together are taken in the order in which they are stored |
| AttentionTokens.SpendTouchesOnlyLive | packages/maip-node/src/handlers/economy-core.ts:64-79 | a spend leaves other holders' and expired tokens as they are, and lowers or removes live ones only |
| AttentionTokens.FailedSpendLeaves | packages/maip-node/src/handlers/economy-core.ts:69-89 | a failed spend of a positive amount leaves exactly the tokens that are not the holder's live ones, any other failed spend all tokens |
| AttentionTokens.FailedSpendChangesNothingIff | packages/maip-node/src/handlers/economy-core.ts:69-89 | a failed spend changes nothing if and only if the amount is not positive or the holder has no live token |
| AttentionTokens.FailedSpendMayRemove | packages/maip-node/src/handlers/economy-core.ts:71-73 | a concrete failed spend that removes a token of amount zero |
| AttentionTokens.Economy.GetAttentionBalance | packages/maip-node/src/handlers/economy-core.ts:44-55 | the sum of the amounts of the holder's unexpired tokens |
| AttentionTokens.Economy.SpendInOrder | packages/maip-node/src/handlers/economy-core.ts:68-79 | the loop over found objects, which removes some and changes one in place, takes the tokens in order |
| AttentionTokens.Economy.SpendAttentionTokens | packages/maip-node/src/handlers/economy-core.ts:58-96 | the handler on stored objects does the spend that the three lemmas are about |
| KnowledgeCredits.TransferMoves | packages/maip-node/src/handlers/economy-core.ts:132-162 | what a transfer does to every account's earned, spent and balance, with sender and receiver the same object or not |
| KnowledgeCredits.TransferTotal | packages/maip-node/src/handlers/economy-core.ts:152-162 | a transfer keeps the total balance, except that a dropped debit adds its amount |
| KnowledgeCredits.TransferKeepsBooks | packages/maip-node/src/handlers/economy-core.ts:124-176 | a transfer fails if and only if the balance is too low, and then changes nothing; a successful one keeps accounts equal to the replayed log if and only if it is not a nonzero self-transfer of an account that is not stored (of "system" aside) |
| KnowledgeCredits.AwardKeepsBooks | packages/maip-node/src/handlers/economy-core.ts:179-207 | an award keeps accounts equal to the replayed log and adds its amount to the total |
| KnowledgeCredits.LookupKeepsBooks | packages/maip-node/src/handlers/economy-core.ts:101-121 | a lookup changes no balance and keeps the books; a missing account is created empty, with the time |
| KnowledgeCredits.RunKeepsBooks | packages/maip-node/src/handlers/economy-core.ts:101-207 | over every run each account's earned and spent are the replay of the log, and its balance is their difference |
| KnowledgeCredits.RunLogsTheOperations | packages/maip-node/src/handlers/economy-core.ts:164-204 | over every run the log is, in order, one transaction for each transfer that the balance allowed and for each award, with its parties, amount, reason and time |
| KnowledgeCredits.RunCountsAwards | packages/maip-node/src/handlers/economy-core.ts:101-207 | over every run the balances together are the total awarded, and "system" has spent what the log says it gave less the awards |
| KnowledgeCredits.RunConservesCredits | packages/maip-node/src/handlers/economy-core.ts:101-207 | over every run with amounts not below zero, whatever accounts it names, no balance is negative and together they are the total awarded |
| KnowledgeCredits.SystemAgreesIff | packages/maip-node/src/handlers/economy-core.ts:196-204 | an account named "system" agrees with the log if and only if the awards come to nothing |
| KnowledgeCredits.SystemDisagrees | packages/maip-node/src/handlers/economy-core.ts:196-204 | a concrete run after which it does not |
| KnowledgeCredits.NegativeSelfTransferBreaksBooks | packages/maip-node/src/handlers/economy-core.ts:132-162 | a concrete self-transfer after which the books are wrong |
| KnowledgeCredits.Credits.GetKnowledgeCreditBalance | packages/maip-node/src/handlers/economy-core.ts:101-121 | returns the stored account, created if need be |
| KnowledgeCredits.Credits.MoveCredits | packages/maip-node/src/handlers/economy-core.ts:152-162 | the in-place debit and credit of two objects that may be one, and their storing in turn |
| KnowledgeCredits.Credits.TransferKnowledgeCredits | packages/maip-node/src/handlers/economy-core.ts:124-176 | the handler on stored objects does the transfer that the lemmas are about; both objects are one exactly on a stored self-transfer |
| KnowledgeCredits.Credits.AwardKnowledgeCredits | packages/maip-node/src/handlers/economy-core.ts:179-207 | the handler on stored objects does the award and returns the stored account |
| Gossip.RunKeepsCopies | packages/maip-node/src/handlers/anomaly-sharing-core.ts:64-128 | over every run, each held copy is the report on record with hops at most its maxHops (once it travelled) and seenBy of length hops+1 from reporter to holder; no node holds an id twice; a copy that travelled is not about its holder |
| Gossip.RunCreatesAsAsked | packages/maip-node/src/handlers/anomaly-sharing-core.ts:108-128 | over every run the reports on record are those of the creating steps, each with the reporter, subject, anomaly, maxHops and time of its step |
| Gossip.CopiesAreAsAsked | packages/maip-node/src/handlers/anomaly-sharing-core.ts:64-128 | over every run a held or forwarded copy says what its creating step asked for, and has travelled at most the maxHops of that step |
| Gossip.RunSpreads | packages/maip-node/src/handlers/anomaly-sharing-core.ts:64-103 | while no node has dropped a report, no copy's way repeats a node, every node on it holds the report, and each node accepts an id at most once, the reporter never |
| Gossip.FloodingStops | packages/maip-node/src/handlers/anomaly-sharing-core.ts:64-103 | in a network of n nodes a report is accepted at most n-1 times |
| Gossip.AcceptanceForgets | packages/maip-node/src/handlers/anomaly-sharing-core.ts:93-98 | after an acceptance a node holds an id if and only if it is the accepted one or among its last 999 others |
| Gossip.FewReportsNeverEvict | packages/maip-node/src/handlers/anomaly-sharing-core.ts:95-98 | over every run in which the whole network creates at most 1000 reports, no node ever drops one |
| Gossip.AtMostOnceIff | packages/maip-node/src/handlers/anomaly-sharing-core.ts:64-103 | every run of at most n created reports has each node accept each report at most once, and every route cross each node at most once, if and only if n is at most 1000 |
| Gossip.FewReportsSpread | packages/maip-node/src/handlers/anomaly-sharing-core.ts:64-103 | over every run of at most 1000 created reports, no route repeats a node, every node on it holds the report, and each node accepts an id at most once, the reporter never |
| Gossip.FewReportsStop | packages/maip-node/src/handlers/anomaly-sharing-core.ts:64-103 | over every run of at most 1000 created reports, a network of n nodes accepts each of them at most n-1 times |
| Gossip.AcceptedTwice | packages/maip-node/src/handlers/anomaly-sharing-core.ts:70-98 | a legal run of 1001 created reports in which one comes back to a node over another and is accepted there again |
| Gossip.ReportBook.ReceiveAnomalyReport | packages/maip-node/src/handlers/anomaly-sharing-core.ts:64-103 | accepts exactly the reports that are new, not travelled out and not about the node, keeps the last 1000, leaves other nodes alone, and says whether to forward |
| Gossip.ReportBook.CreateAnomalyReport | packages/maip-node/src/handlers/anomaly-sharing-core.ts:108-128 | appends to the node's list, and returns, the report with each field as given, no hops, and the node alone in seenBy |
| Gossip.ReportBook.GetPendingForwards | packages/maip-node/src/handlers/anomaly-sharing-core.ts:193-198 | the held copies with hops left, nothing being changed |
| Governance.StepKeepsInv | packages/maip-node/src/handlers/governance.ts:86-242 | every step keeps the invariant, and keeps lifted isolations, resolved appeals and the flaggers of an isolation under appeal |
| Governance.RunKeepsInv | packages/maip-node/src/handlers/governance.ts:86-242 | over every run: appealed iff appealPending iff exactly one open appeal names the isolation; reviewers are distinct and had not flagged it; an open appeal has at most two votes, a resolved one three, "lifted" iff two of them lift |
| Governance.VotesAreTheLast | packages/maip-node/src/handlers/governance.ts:203-214 | over every run an appeal holds each reviewer's last vote that was taken on it, and no other votes |
| Governance.VoteIsTakenIff | packages/maip-node/src/handlers/governance.ts:187-214 | when a vote is taken, and each way of refusing it, if and only if; a vote taken is recorded for its reviewer |
| Governance.FlagIsStored | packages/maip-node/src/handlers/governance.ts:86-121 | the answer to a flag; a new isolation is stored with the fields given, an active one gains the flagger once |
| Governance.AppealIsStored | packages/maip-node/src/handlers/governance.ts:139-179 | when an appeal is taken, and each way of refusing it, if and only if; the isolation is then under appeal and the appeal stored with the fields given |
| Governance.RecordsKeepTheirFacts | packages/maip-node/src/handlers/governance.ts:86-242 | what an isolation or an appeal is about never changes, and flaggers and reviewers are only added at the end |
| Governance.SettledIsFinal | packages/maip-node/src/handlers/governance.ts:153-156 | lifted isolations and resolved appeals never change again in any run |
| Governance.VoteKeepsAppeal | packages/maip-node/src/handlers/governance.ts:203-237 | a vote, also a changed one, by who had not flagged keeps the tally in order up to the outcome |
| Governance.OneActiveIff | packages/maip-node/src/handlers/governance.ts:94-116 | a step keeps at most one active isolation per DID if and only if it is not a third vote that turns an appeal down, nor a record from another source, while another of that DID is active; the condition reads the appeal, its votes and the isolations before the step |
| Governance.FlaggedTwice | packages/maip-node/src/handlers/governance.ts:94-116 | a legal run after which a DID has two active isolations |
| Governance.Registry.IsolateHandler | packages/maip-node/src/handlers/governance.ts:86-121 | the handler on stored objects: a new record, or one more flagger on the first active one |
| Governance.Registry.AppealHandler | packages/maip-node/src/handlers/governance.ts:139-179 | the handler on two stores: marks the active isolation and stores an open appeal, or says why not |
| Governance.Registry.AppealVoteHandler | packages/maip-node/src/handlers/governance.ts:182-242 | the handler on two stores: votes, resolves and settles the isolation, or says why not |
| Governance.Registry.RecordVote | packages/maip-node/src/handlers/governance.ts:210-237 | the assignments to the appeal object, one by one, amount to the recorded vote and the outcome |
| GuardianAuthority.ProcessKeepsAgreement | packages/maip-node/src/handlers/guardian-authority-core.ts:87-170 | a command keeps the restriction lists equal to what stands of the history |
| GuardianAuthority.RunKeepsAgreement | packages/maip-node/src/handlers/guardian-authority-core.ts:87-170 | over every run of commands and upgrades the restrictions are the accepted commands not covered by a later accepted lift |
| GuardianAuthority.BlockedIsWhatStands | packages/maip-node/src/handlers/guardian-authority-core.ts:175-219 | over every run an action is blocked if and only if an accepted lockdown, veto, peer or topic restriction that applies to it has no later accepted lift covering it |
| GuardianAuthority.AcceptedByLevel | packages/maip-node/src/handlers/guardian-authority-core.ts:92-127 | which commands of the guardian are accepted: below level 2 all, at level 2 all but peer and topic restrictions, at level 3 a lockdown alone; refused ones are recorded and restrict nothing; nobody else is heard |
| GuardianAuthority.SocialAgentsGainNoRestriction | packages/maip-node/src/handlers/guardian-authority-core.ts:121-127 | from level 2 on, over every run, no peer and no topic is restricted that was not before |
| GuardianAuthority.RunHearsTheGuardian | packages/maip-node/src/handlers/guardian-authority-core.ts:92-170 | over every run the history lists the guardian's commands and times, refused ones too, in order |
| GuardianAuthority.RunListsOnce | packages/maip-node/src/handlers/guardian-authority-core.ts:131-165 | over every run no peer, topic or action is listed twice |
| GuardianAuthority.UpgradeRaisesByOne | packages/maip-node/src/handlers/autonomy-core.ts:109-161 | an upgrade raises the level by one, below level 2 if and only if approved, from level 2 to 3 if and only if the five metrics are met, each with its number; when approval is asked for |
| GuardianAuthority.ApprovalAloneSuffices | packages/maip-node/src/handlers/autonomy-core.ts:120-142 | an approved agent with no metrics met, and any number of anomalies, rises |
| GuardianAuthority.LevelNeverFalls | packages/maip-node/src/handlers/autonomy-core.ts:109-161 | over every run the level never falls and rises at most once per event |
| GuardianAuthority.IndependentAgentsAreNeverFreed | packages/maip-node/src/handlers/guardian-authority-core.ts:112-119 | from level 3 on, over every run, all that changes is that a lockdown begins |
| GuardianAuthority.Agent.ProcessGuardianCommand | packages/maip-node/src/handlers/guardian-authority-core.ts:87-170 | the handler on its lists, flag and history does what the lemmas are about |
| GuardianAuthority.Agent.ProcessAutonomyTransition | packages/maip-node/src/handlers/autonomy-core.ts:109-161 | the handler assigns the next level exactly when approval or metrics allow it |
| GuardianTransfer.RunKeepsInv | packages/maip-node/src/handlers/guardian-transfer-core.ts:22-163 | over every run: one pending transfer per agent; a pending one has approvals only and somebody left to answer (unless all roles are one DID); a completed one has all approvals within 90 days; a rejected one ends in its only refusal |
| GuardianTransfer.RunAccounts | packages/maip-node/src/handlers/guardian-transfer-core.ts:22-163 | over every run each transfer has the agent, guardians and reason of the operation that initiated it, begins with the approval of the party it names as initiator, and every other consent was submitted as it stands |
| GuardianTransfer.CompletedByAll | packages/maip-node/src/handlers/guardian-transfer-core.ts:127-137 | over every run a transfer completes only if each party other than the initiator has submitted its approval |
| GuardianTransfer.InitiatedIff | packages/maip-node/src/handlers/guardian-transfer-core.ts:33-43 | a transfer is initiated if and only if nothing is missing and none of the agent's is open |
| GuardianTransfer.AnswerIsTakenIff | packages/maip-node/src/handlers/guardian-transfer-core.ts:79-118 | an answer is taken if and only if it comes from a party that has not answered, on a pending transfer, within 90 days; when it is too late |
| GuardianTransfer.ClosedIsFinal | packages/maip-node/src/handlers/guardian-transfer-core.ts:88-90 | completed, rejected and expired transfers never change again in any run |
| GuardianTransfer.AnswerDecides | packages/maip-node/src/handlers/guardian-transfer-core.ts:112-137 | an answer rejects if and only if it refuses, and completes if and only if it approves and all other parties have answered |
| GuardianTransfer.AllAnsweredIffOneParty | packages/maip-node/src/handlers/guardian-transfer-core.ts:127-137 | of the pending transfers, those that all parties have answered are exactly those with one DID in all roles |
| GuardianTransfer.SomebodyCanAnswerIff | packages/maip-node/src/handlers/guardian-transfer-core.ts:100-110 | a pending transfer in time still takes an answer of somebody if and only if its roles are not all one DID's |
| GuardianTransfer.OnePartyOnlyExpires | packages/maip-node/src/handlers/guardian-transfer-core.ts:22-163 | over every run a transfer with one DID in all roles is pending or expired |
| GuardianTransfer.OnePartyCanInitiate | packages/maip-node/src/handlers/guardian-transfer-core.ts:33-65 | a legal run after which such a transfer is stored |
| GuardianTransfer.OnePartyNeverAnswers | packages/maip-node/src/handlers/guardian-transfer-core.ts:106-110 | with one DID in all roles no consent is ever taken |
| GuardianTransfer.Transfers.ProcessInitiateTransfer | packages/maip-node/src/handlers/guardian-transfer-core.ts:22-67 | the handler on stored objects: a transfer with the initiator's consent, or why not |
| GuardianTransfer.Transfers.ProcessTransferConsent | packages/maip-node/src/handlers/guardian-transfer-core.ts:70-141 | the handler on stored objects, every refusal in the order of the source |
| GuardianTransfer.Transfers.ProcessGetTransferStatus | packages/maip-node/src/handlers/guardian-transfer-core.ts:144-163 | the handler returns the transfer and closes it when its time is over |
| AuditLog.HeadIdentifiesLog | packages/maip-node/src/stores/audit-log.ts:60-119 | with a collision-free digest that avoids the genesis value, two verified logs have the same last hash if and only if they are equal entry for entry and in length |
| AuditLog.LogTellsTheEvents | packages/maip-node/src/stores/audit-log.ts:60-92 | after any sequence of appends the log verifies and its entries are the events given, each at its index, with its fields and the hash of the one before |
| AuditLog.IntactIffChained | packages/maip-node/src/stores/audit-log.ts:95-119 | what verification lets pass after an intact log is exactly what links and hashes on from its last hash |
| AuditLog.RechainedTamperingPasses | packages/maip-node/src/stores/audit-log.ts:4-6 | a log changed from some entry on verifies if and only if the changed part is chained, and any contents can be made to |
| AuditLog.TamperingShowsInTheHead | packages/maip-node/src/stores/audit-log.ts:4-6 | a changed log fails verification or has another last hash; a truncated one verifies and has another last hash |
| AuditLog.ReportIsUnique | packages/maip-node/src/stores/audit-log.ts:95-119 | only one verification report is right for a log |
| AuditLog.PrefixVerifies | packages/maip-node/src/stores/audit-log.ts:95-119 | every prefix of a verified log verifies |
| AuditLog.AuditLog.Append | packages/maip-node/src/stores/audit-log.ts:60-92 | appends an entry linked to the last one and keeps the log verified |
| AuditLog.AuditLog.Verify | packages/maip-node/src/stores/audit-log.ts:95-119 | reports the first entry whose link or own hash is wrong, with the expected and the found value; valid if and only if there is none |
| Relay.RunKeepsInv | packages/maip-node/src/handlers/relay-core.ts:32-120 | over every run: held is, in storing order, what was stored and neither delivered nor purged; no mailbox is over 100 |
| Relay.IdsArePartitioned | packages/maip-node/src/handlers/relay-core.ts:107-113 | over every run the ids ever stored are the disjoint union of held, delivered and purged |
| Relay.RetrievalDelivers | packages/maip-node/src/handlers/relay-core.ts:88-120 | over every run a retrieval returns, in storing order, exactly the recipient's unexpired messages not delivered before, and leaves exactly the others' unexpired ones |
| Relay.RunStoresAsAsked | packages/maip-node/src/handlers/relay-core.ts:59-71 | over every run each stored message has the recipient, payload, sender and id of an operation that stored it, and expires seven days after that operation |
| Relay.StoredIsDelivered | packages/maip-node/src/handlers/relay-core.ts:32-120 | a message that was taken is handed over, as given, by the recipient's next retrieval within seven days, if no operation in between comes later than these are over |
| Relay.RefusedIffFull | packages/maip-node/src/handlers/relay-core.ts:39-57 | over every run a complete message is refused if and only if exactly 100 are held for its recipient |
| Relay.RelayNode.ProcessRelayStore | packages/maip-node/src/handlers/relay-core.ts:32-81 | the handler on the store does the storing that the lemmas are about: one more message with its expiry, or why not |
| Relay.RelayNode.ProcessRelayRetrieve | packages/maip-node/src/handlers/relay-core.ts:88-120 | the handler purges, hands over the recipient's messages and removes them one by one |
| Relay.RelayNode.PurgeExpiredRelay | packages/maip-node/src/stores/index.ts:162-169 | the loop removes exactly the expired messages and counts them |
| Backup.HoldsTheWinner | packages/maip-node/src/handlers/ai-will-core.ts:122-155 | after any deliveries each agent and type is held at most once, as the first-arrived shard of the highest version delivered, and only if one was |
| Backup.ReplicasConverge | packages/maip-node/src/handlers/ai-will-core.ts:132-152 | two nodes given the same shards in any order and number hold the same versions, and the same shards if versions identify shards |
| Backup.PruneKeepsOnePerSlot | packages/maip-node/src/handlers/ai-will-core.ts:172-181 | pruning keeps exactly the unexpired shards, and one per agent and type |
| Backup.OnePerSlotAlways | packages/maip-node/src/handlers/ai-will-core.ts:122-181 | over every run of deliveries and prunes each agent and type is held at most once, as a complete delivery that no later one of a higher version and no prune since has replaced |
| Backup.HeldForNinetyDays | packages/maip-node/src/handlers/ai-will-core.ts:137-152 | over every run a shard that was kept stays held for 90 days, unless one of a higher version takes its slot |
| Backup.ReceptionAnswers | packages/maip-node/src/handlers/ai-will-core.ts:126-154 | a reception names a missing field if and only if there is one, and answers with what is held if and only if that is of the same slot and not of a lower version |
| Backup.BackupHolder.ReceiveBackupShard | packages/maip-node/src/handlers/ai-will-core.ts:122-155 | the handler keeps the shard, answers with a newer one it has, or reports a missing field; other nodes' shards stay |
| Backup.BackupHolder.PruneExpiredBackups | packages/maip-node/src/handlers/ai-will-core.ts:172-181 | the handler drops the expired shards of one node and counts them |
| RateLimit.AtMost59PerMinute | packages/maip-node/src/handlers/messages-core.ts:22-43 | over any trace whose clock does not go back, any 60,000 ms, both ends included, admit at most 59 messages of a DID |
| RateLimit.AtMost30PerWindow | packages/maip-node/src/handlers/messages-core.ts:37-42 | over any such trace a DID's window has admitted what it counts, at most 30 |
| RateLimit.RefusedIff | packages/maip-node/src/handlers/messages-core.ts:32-39 | over any such trace a message is turned away if and only if 30 of its sender got through since the window began, a minute ago at most |
| RateLimit.WindowBegins | packages/maip-node/src/handlers/messages-core.ts:32-35 | a window begins with a message that gets through, when there was none or the last one began more than a minute ago |
| RateLimit.SendersAreIndependent | packages/maip-node/src/handlers/messages-core.ts:22-43 | a DID's window and admissions are what they are in the trace of its own attempts alone |
| RateLimit.The59AreReached | packages/maip-node/src/handlers/messages-core.ts:32-35 | a trace that gets 59 messages through in two milliseconds |
| RateLimit.RateLimiter.CheckRateLimit | packages/maip-node/src/handlers/messages-core.ts:28-43 | the limiter on its mutable entries answers and counts as the traces do |
| SocialHealth.PeersPartitionMessages | packages/maip-agent/src/attachment-safety.ts:161-172 | the per-peer totals over the distinct peers add up to all messages |
| SocialHealth.HhiBounds | packages/maip-agent/src/attachment-safety.ts:164-173 | with a message, shares add up to one and the index is between 1/n and 1 for n peers |
| SocialHealth.IndexIsSquaredTotals | packages/maip-agent/src/attachment-safety.ts:164-173 | the index, times the square of the number of messages, is the sum of the squares of the per-peer totals |
| SocialHealth.LowestIffEven | packages/maip-agent/src/attachment-safety.ts:164-173 | the index is 1/n for n peers if and only if all have equally many messages |
| SocialHealth.DiversityBounds | packages/maip-agent/src/attachment-safety.ts:173-174 | the unrounded score is in [0, 1 - 1/n] if and only if there is a message; the rounded one is always a whole number of hundredths, in [0, 1] and within 0.005 |
| SocialHealth.SilentPeerIsDiverse | packages/maip-agent/src/attachment-safety.ts:171-174 | a concrete window of one peer and no message whose unrounded score is one |
| SocialHealth.NoDiversityIff | packages/maip-agent/src/attachment-safety.ts:164-174 | the unrounded score is zero if and only if one peer has all the messages |
| SocialHealth.PeerShares | packages/maip-agent/src/attachment-safety.ts:165-172 | the loop over peers pushes each peer's part of all messages, in order |
| SocialHealth.KeptSufficesIff | packages/maip-agent/src/attachment-safety.ts:73-75 | over every sequence of recordings, what is kept shows the same window as all that was recorded if and only if every interaction of the window has outlived the later recordings |
| SocialHealth.ThirtyDaysSuffice | packages/maip-agent/src/attachment-safety.ts:73-75 | windows of 30 days at most lose nothing, as long as no recording is later than the assessment |
| SocialHealth.LongerWindowsLose | packages/maip-agent/src/attachment-safety.ts:73-75 | for every longer window two recordings of which it loses one |
| SocialHealth.Monitor.RecordInteraction | packages/maip-agent/src/attachment-safety.ts:66-76 | the recording adds to the history, and every window of the kept list shows all of the history in it if and only if no recording has dropped some of it |
| SocialHealth.Monitor.AssessDiversity | packages/maip-agent/src/attachment-safety.ts:156-174 | the computed score is the one the bounds are proved of |

## Left out

- HTTP, WebSocket and libp2p transport, the command line, timers and `fetch` clients: input and output only.
- Files: stores and the audit log are kept in memory; loading, saving and what a damaged file does are not modelled.
- Ed25519, SHA-256, base64 and the other primitives: parameters with stated assumptions; a scheme's `verify` is total here, where the source turns an exception into false.
- Numbers in canonical text other than integers that a double holds exactly: their printing is `String` of a double. Functions, symbols and objects with `toJSON` are not values here.
- The text form of signatures, a parameter here: the specification asks for Base58, and the code writes base64.
- JSON of frame payloads: frames carry bytes.
- `JsonStore.getAll`, `count` and `update`: nothing to prove, or no caller.
- Separate readings of the clock within one call: they are one time here; so are a transfer's two readings and a shard's two.
- The ids of accepted guardian commands and of backup shards, texts of refusals, and the audit trail of upgrades: data that nothing reads back.
- A reviewer named like a special property of JavaScript objects (`__proto__`), whose vote would not be recorded.
- `issueAttentionTokens` and reputation stakes: they store one record.
- `upsertWill`, `getWill`, `deleteWill`: the will of an agent is kept as a shard of a single type is, with an error where the shard answers with what is held.
- Threat assessment, the getters of restrictions, command history and audit entries, `isActionAllowed`: they only read.
- How the metrics of an autonomy upgrade are computed from the stores: they are arguments.
- The maps of restrictions and history by agent in the guardian authority: one agent is modelled, as a process has one identity.
- Assessments of single relationships, risk levels and recommendations: heuristics over the shares; `Math.round` is taken on reals, not on doubles.
- Consensus and fact verification: their voter is always the node that keys the store, so a tally never gets a second vote.
- Proxy policy, social-engineering guard, behaviour baselines, content and persona handling: heuristics without a deep property.
