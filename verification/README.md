# Verified model of the page2webmcp control plane and its release verifier

This project models four parts of the repository in Dafny and proves what they promise. Functions say what one call
does to a state; classes and methods do it step by step, as the sources do, and are proved equal to those functions;
lemmas prove what holds over every input, every run and every restart.

**The release verifier protocol v2.** The client half (`VerifierClient`), the server half (`VerifierServer`,
`VerifierHandler`), the canonical JSON both sign (`JsonText`, `JsonRoundTrip`), and the two together with a network
that loses, repeats, delays, reorders and injects messages and a server that crashes and restarts (`VerifierSystem`).
`VerifierCalls` relates single calls of the two halves, `VerifierSafety` proves the invariant of every step and
`VerifierTheorems` the main results: agreement, at most once, bounded replay state. `VerifierReadiness` shows, with the
sizes of bodies from `JsonSize`, that the simplest exchange succeeds whenever the two clocks allow it. `VerifierMemory`
is the server without a replay file: what its memory store promises per process, and what a restart forgets.
`VerifierExact` says what each half accepts without the words of its checks, `VerifierPosted` what becomes of a request
by the path it is posted to and beside another one, and `JsonCanonical` what the canonical text is.

**The replay stores.** `ReplayFile` is the append-only file, printed and parsed; `ReplayStore` the memory store, the
durable store and the client's guard; `ReplayRuns` shows that the swept map answers as the log of all admissions
would, and that the durable store keeps its promise over failed writes, crashes and restarts. `UriComponent`,
`Decimal`, `Unicode` and `Sorting` hold the text formats they rest on.

**The two in-memory ledgers.** `PartsLedger`, `PartsConsole`, `PartsSafety`, `PartsRuns`, `PartsAccounts` and
`PartsListing` are the parts console with its reservations of stock; `SupportLedger`, `AcmeSupport` and `SupportRuns`
the support desk with its tickets. They share `Validation`, `Expiring`, `Idempotency` and `EvidenceAccounts`.

**Gate and encodings.** `CandidateGate` decides which plans a release candidate holds, `ReleaseVerification` when the
release is eligible; `Collections` has the facts about lists they need. `SourceIdentity`, `Ownership` and
`OperationKeys` are the source identity, the ownership proof and the browser's store of idempotency keys.

## Assumptions

- SHA-256 is any function whose output is 64 lower-case hexadecimal digits. Only `SourceIdentity.IdentityExactly`,
  `CandidateGate.SelectedPlansThemselves` and `VerifierPosted.SecondAccepted` need more: that it does not collide on the
  texts they compare.
- A signature verifies only on a body that one of the two sides has signed.
- Request identifiers, attestation identifiers, and the identifiers of reservations and confirmations are fresh.
  `PartsSafety.EffectConservesExactly` says exactly what a repeated reservation identifier would break.
- No clock goes backwards. Client and server of the verifier each read their own, and the two need not agree.
  `ReplayRuns.RewindReadmits` shows that with a clock that goes back a key is admitted twice.
- A line of the replay file is written as a whole or not at all, and rewriting the file is atomic.
- `toISOString` prints every date with a four-digit year in its 24 characters and `Date.parse` reads it back; a text of
  that form which is printed as it was read is such a date. For the ownership proof the same holds of all dates. The
  `new URL` tests are predicates on strings. `VerifierReadiness.SomeExchangeSucceeds` has a platform that meets all
  this.

## Model

| member | source | states |
|---|---|---|
| VerifierTheorems.Agreement | apps/control-plane/src/release-verifier-protocol-v2.ts:141-217 | in every state of every run, with any loss, repetition, delay, reordering or injection of messages and any restarts, a response the client accepts for a request matches an acceptance by the server of that very request (identifier, nonce digest, operation, scope, payload, both digests, body), and its report is what the evaluation of that acceptance returned |
| VerifierTheorems.AcceptedAtMostOnce | apps/release-verifier/src/protocol.ts:94-107 | over every run no body and no request identifier is accepted twice, and a nonce only after the first acceptance has expired |
| VerifierTheorems.AnsweredAtMostOnce | apps/control-plane/src/release-verifier-protocol-v2.ts:202-205 | over every run each request gets at most one accepted response |
| VerifierTheorems.DeliveredWithinPolicy | apps/release-verifier/src/server.ts:151-204 | over every run an accepted response is about a target origin the server allows, or is the fixed readiness report for a deployment it knows |
| VerifierTheorems.OpenRequestsBounded | apps/release-verifier/src/protocol.ts:103-107 | over every run twice the number of accepted requests whose window is open is at most the store's entries |
| VerifierTheorems.OpenRequestsHeld | apps/release-verifier/src/replay-store.ts:80-83 | over every run neither key of an open request is evicted: not by capacity, failed writes or a restart |
| VerifierTheorems.WindowNeverCloses | apps/release-verifier/src/protocol.ts:129-135 | over every run, at any later or earlier time, attesting an accepted request never fails because its window is closed, and the attested instant lies in the window |
| VerifierTheorems.ExchangeSucceeds | apps/release-verifier/src/server.ts:88-144 | the six steps of an exchange without faults deliver exactly the report and the attestation, if and only if the two clocks allow it: the server reads a time in the request's sixty seconds, and the client on receipt one from the attested instant to their end |
| VerifierReadiness.ReadinessSucceeds | apps/release-verifier/src/server.ts:157-167 | a client asking for a deployment the server knows is sent its fixed report and accepts it, if and only if the two clocks allow it: both bodies fit whatever identifiers, nonce, times and small payload they carry |
| VerifierReadiness.SomeExchangeSucceeds | apps/control-plane/src/release-verifier-protocol-v2.ts:80-217 | one platform, server and client that meet every assumption, with an exchange that succeeds, so that no theorem of the protocol is about nothing |
| VerifierReadiness.RequestSmall | apps/control-plane/src/release-verifier-protocol-v2.ts:105-139 | a request with identifiers, digests and times of their forms and a small scope and payload fits the limit on bodies |
| VerifierSafety.StepKeeps | apps/release-verifier/src/protocol.ts:94-107 | every step (tick of either clock, send, receive, evaluate, attest, crash and restart, answer) keeps the invariant of the system |
| VerifierSafety.RunKeeps | apps/release-verifier/src/protocol.ts:47-157 | the invariant holds after any sequence of steps from a store that was just opened |
| VerifierCalls.ScopesAgree | apps/control-plane/src/release-verifier-protocol-v2.ts:250-278 | the two separately written scope checks accept the same scopes on the three operations, and the client's accepts no other operation |
| VerifierCalls.AdmittedAsSent | apps/release-verifier/src/protocol.ts:62-118 | a canonical request that is admitted is admitted with exactly the fields that were sent, by its own path, in its window, with the digests of its scope and payload |
| VerifierCalls.AttestationNotAdmitted | apps/release-verifier/src/protocol.ts:70-82 | a body the server signs as an attestation is never admitted as a request |
| VerifierCalls.RequestNotResponse | apps/control-plane/src/release-verifier-protocol-v2.ts:166-178 | a body the client signs as a request is never accepted as a response |
| VerifierCalls.BuiltRequestExamined | apps/control-plane/src/release-verifier-protocol-v2.ts:80-139 | what the server's checks answer to a request the client built, at every time: future, expired, or admitted as built |
| VerifierCalls.BuiltRequestAccepted | apps/release-verifier/src/protocol.ts:98-107 | a request the client built is accepted if and only if the server's time lies in its sixty seconds, neither key is unexpired, two entries fit and both lines are flushed |
| VerifierCalls.BothKeysAdmitted | apps/release-verifier/src/protocol.ts:103-107 | the two admissions of a request both succeed if and only if both keys are absent, two entries fit and both writes succeed |
| VerifierCalls.KeysFit | apps/release-verifier/src/replay-store.ts:50-54 | the keys of any request fit the limits on key and line length whatever the expiry, and are never equal |
| VerifierCalls.TimelineExact | apps/control-plane/src/release-verifier-protocol-v2.ts:187-193 | for any window and any two clocks the clamp lands in [issuedAt, expiresAt - 1] and the client's tests on time pass exactly from the clamped instant until the expiry |
| VerifierCalls.AttestationInWindow | apps/release-verifier/src/protocol.ts:122-137 | an attestation never fails on its window and carries the clamped instant |
| VerifierCalls.ResponseAsAttested | apps/control-plane/src/release-verifier-protocol-v2.ts:141-217 | a response that passes the client's checks is the attestation the server signed, for the context it was asked with |
| VerifierCalls.AttestationAccepted | apps/control-plane/src/release-verifier-protocol-v2.ts:179-200 | the client's answer to any attestation the server builds depends on time alone |
| VerifierCalls.BuiltRequestAnswered | apps/control-plane/src/release-verifier-protocol-v2.ts:80-217 | end to end, for three arbitrary clocks: the client accepts the answer to its request exactly from the attested instant until sixty seconds after the request |
| VerifierExact.BuildsExactly | apps/control-plane/src/release-verifier-protocol-v2.ts:80-139 | a request is built if and only if token, operation, scope, time, identifier and nonce are proper and its text fits; otherwise which code is answered, and every field of what is built |
| VerifierExact.AdmittedExactly | apps/release-verifier/src/protocol.ts:47-118 | a body is admitted if and only if it fits, has the token and a signature that verifies, and is the canonical text of a request with the right forms, digests, scope and window, and it is admitted as that request |
| VerifierExact.RefusedUnread | apps/release-verifier/src/protocol.ts:54-61 | before the body is read size, token and signature are looked at, in this order, each with its status and code |
| VerifierExact.ResponseExactly | apps/control-plane/src/release-verifier-protocol-v2.ts:141-217 | the client's checks accept a body if and only if signature, token and context are proper and it is the canonical text of an attestation with the right forms, about this request, in its window and that of the request |
| VerifierExact.AttestationRefused | apps/control-plane/src/release-verifier-protocol-v2.ts:160-200 | which code any well-formed attestation is refused with, forged or not: signature, future, expired, timeline, context, in this order |
| VerifierExact.ScopeExactly | apps/release-verifier/src/protocol.ts:201-246 | a scope is valid if and only if it has exactly the members of its operation, each of its form and size |
| VerifierExact.IdentifierForm | apps/release-verifier/src/protocol.ts:15-15 | an identifier is five groups of hexadecimal digits with the version and variant of a random UUID |
| VerifierExact.TimestampForm | apps/release-verifier/src/protocol.ts:18-18 | a timestamp has 24 characters with digits and separators in their places |
| VerifierEnvelope.Base64UrlRoundTrip | apps/control-plane/src/release-verifier-protocol-v2.ts:109-109 | decoding the characters of a nonce, by a decoder of its own, gives back its bytes |
| VerifierEnvelope.Base64UrlInjective | apps/control-plane/src/release-verifier-protocol-v2.ts:109-109 | two nonces are equal if and only if their bytes are |
| VerifierExact.HashForm | apps/release-verifier/src/protocol.ts:14-14 | a digest is 64 lower-case hexadecimal digits |
| VerifierExact.NonceForm | apps/release-verifier/src/protocol.ts:17-17 | a nonce is 43 characters that each stand for six bits |
| VerifierPosted.NonceOfBytes | apps/control-plane/src/release-verifier-protocol-v2.ts:109-109 | every request carries the nonce of the bytes it was built from, and of no others |
| VerifierPosted.SecondAccepted | apps/release-verifier/src/protocol.ts:98-107 | after a request was accepted, another built from another identifier and other bytes is accepted if and only if it is in its own window, its own keys are fresh and two more entries fit, where the digests of the two nonces do not collide |
| VerifierPosted.PostedExactly | apps/release-verifier/src/server.ts:76-145 | what the handler answers to a request the client built, posted to any path at any time: 404, 405, 400 by another operation's path, too early, too late, 409, the refusal of its evaluation, or the attested report; and when the store stays as it was |
| VerifierServer.VerifyVerifierRequest | apps/release-verifier/src/protocol.ts:47-120 | the two admissions on the running store leave the store and the verdict the specification function gives, for every way the two writes can end |
| VerifierClient.VerifyLiveVerifierResponse | apps/control-plane/src/release-verifier-protocol-v2.ts:141-217 | the replay guard is asked last, only about a response that passed every check, and ends in the state of the specification |
| VerifierMemory.VerifyInMemory | apps/release-verifier/src/protocol.ts:47-120 | without a replay file: the two admissions on the memory store leave the map and the verdict the specification function gives |
| VerifierMemory.AcceptedExactly | apps/release-verifier/src/protocol.ts:103-107 | on the memory store a call is accepted if and only if its checks pass, neither key is unexpired and two more entries fit |
| VerifierMemory.AcceptedAtMostOncePerProcess | apps/release-verifier/src/server.ts:206-210 | over every run with restarts, whatever is signed: no process accepts a body twice, nor a request identifier or a nonce again before the first acceptance has expired |
| VerifierMemory.RestartAccepts | apps/release-verifier/src/server.ts:206-210 | after a restart a call is accepted if and only if its checks pass and the store can hold two entries |
| VerifierMemory.RestartForgets | apps/release-verifier/src/server.ts:206-210 | exactly what a restart makes acceptable again: of the calls accepted before, those whose window is still open |
| VerifierHandler.Handle | apps/release-verifier/src/server.ts:76-145 | admit, then evaluate, then attest: the response and the store that the specification gives, in every branch, a passed deadline and a verifier that throws included |
| VerifierHandler.HandlerStepsSystem | apps/release-verifier/src/server.ts:88-144 | one call of the handler is four steps of the system: same store, and an attestation is signed exactly when it is answered, for the request just admitted |
| ReplayRuns.SweepRefinesLog | apps/release-verifier/src/replay-store.ts:71-85 | for the stores and for the client's guard: a key (well-formed, for a store) is admitted if and only if no earlier admission of it is unexpired and fewer than the maximum of all past admissions are live, so the swept map answers as the full log |
| ReplayRuns.RewindReadmits | apps/release-verifier/src/replay-store.ts:80-81 | why the clock must not go back, for store and guard: with a sweep in between, a rewound clock admits an unexpired key again |
| ReplayRuns.DurableAdmitsExactly | apps/release-verifier/src/replay-store.ts:48-63 | one call of the durable store, branch by branch: when it admits, what the map holds then and when the file has a line more |
| ReplayFile.ReadLineExactly | apps/release-verifier/src/replay-store.ts:92-100 | any line is read as a key and an expiry if and only if it has a key without blanks, a blank and one to fifteen digits, and then nothing or a blank |
| ReplayRuns.StepKeepsFile | apps/release-verifier/src/replay-store.ts:48-63 | every admission, refused, failed or flushed, keeps every held key on the file with its expiry on the last line for it |
| ReplayRuns.RunInvariant | apps/release-verifier/src/replay-store.ts:37-103 | over any admissions, failed writes, crashes and restarts: held keys are on the file, and unexpired admissions whose expiry has at most fifteen digits are held |
| ReplayRuns.DurableAtMostOnce | apps/release-verifier/src/replay-store.ts:37-103 | two admissions of one key in one history are at least the first one's lifetime apart, however often the process restarts, when the first expiry has at most fifteen digits |
| ReplayRuns.RestartRefusesAdmitted | apps/release-verifier/src/replay-store.ts:43-46 | after a crash at any point the reloaded store refuses every admitted key that is still unexpired and whose expiry has at most fifteen digits |
| ReplayRuns.SurvivesRestartExactly | apps/release-verifier/src/replay-store.ts:96-101 | a held key survives a restart if and only if some line for it is readable and unexpired, with its own expiry when that has at most fifteen digits; without older lines for the key, if and only if it has |
| ReplayRuns.OpenedKeepsFile | apps/release-verifier/src/replay-store.ts:43-46 | opening any file gives a store in its invariant |
| ReplayFile.LineRoundTrip | apps/release-verifier/src/replay-store.ts:96-100 | a printed line reads back as its own key and expiry if and only if the entry is recordable |
| ReplayRuns.LoadFileExactly | apps/release-verifier/src/replay-store.ts:87-103 | the text of any log loads without throwing; a key is loaded if and only if some line for it is readable and unexpired, with the expiry of the last such line |
| ReplayRuns.CompactRoundTrip | apps/release-verifier/src/replay-store.ts:87-108 | loading what was compacted gives, for every map and every order, exactly its unexpired entries with a key that is not empty and an expiry of at most fifteen digits |
| ReplayRuns.CompactKeepsLive | apps/release-verifier/src/replay-store.ts:87-108 | for maps with only such keys and expiries that is exactly the unexpired entries |
| ReplayFile.LoadEntries | apps/release-verifier/src/replay-store.ts:87-103 | the loop over the lines loads what the specification says, on any text, including where decoding throws |
| ReplayStore.EntryMap.Sweep | apps/release-verifier/src/replay-store.ts:80-80 | the loop removes exactly the entries whose expiry has passed |
| ReplayStore.EntryMap.Admit | apps/release-verifier/src/replay-store.ts:71-85 | the answer and the whole map after an admission, for malformed keys, held keys, a full map and the rest |
| ReplayStore.ReplayGuard.Admit | apps/control-plane/src/release-verifier-protocol-v2.ts:220-234 | the same for the client's guard |
| ReplayStore.MemoryReplayStore.Admit | apps/release-verifier/src/replay-store.ts:29-35 | the same for the memory store |
| ReplayStore.DurableReplayStore.Admit | apps/release-verifier/src/replay-store.ts:48-63 | map, log and file after an admission, for every way the write can end |
| ReplayStore.Compact | apps/release-verifier/src/replay-store.ts:105-108 | the written text lists every entry of the map once |
| ReplayStore.OpenDurable | apps/release-verifier/src/replay-store.ts:37-46 | the opened store holds what the file holds and has rewritten it |
| ReplayStore.Reopen | apps/release-verifier/src/replay-store.ts:37-46 | opening the file a store left behind is a restart of that store |
| UriComponent.DecodeEncode | apps/release-verifier/src/replay-store.ts:50-100 | decoding a percent-encoded key gives the key, for every Unicode text |
| UriComponent.EncodeCharacter | apps/release-verifier/src/replay-store.ts:50-50 | letters, digits and nine marks stand for themselves; every other character is written as upper-case percent escapes that decode to it |
| UriComponent.EncodeConcat | apps/release-verifier/src/replay-store.ts:50-50 | a text is encoded character by character |
| UriComponent.EncodePlain | apps/release-verifier/src/replay-store.ts:50-50 | an encoded key holds no blank and no line end |
| JsonRoundTrip.ValueRoundTrip | apps/control-plane/src/release-verifier-protocol-v2.ts:236-248 | parsing an encoding followed by any text that does not extend it gives the value and that text, for any order of keys |
| JsonRoundTrip.ParseEncode | apps/control-plane/src/release-verifier-protocol-v2.ts:236-248 | parsing an encoding gives the value |
| JsonRoundTrip.EncodeInjective | apps/control-plane/src/release-verifier-protocol-v2.ts:236-248 | two encodings are equal if and only if the values are, up to the order of keys |
| JsonRoundTrip.CanonicalExactly | apps/release-verifier/src/protocol.ts:62-69 | the parse-and-compare check accepts a text for a value if and only if it is the value's canonical text |
| JsonRoundTrip.OneTextPerValue | apps/release-verifier/src/protocol.ts:62-69 | any second text of a value (white space, unsorted or repeated keys, other escapes) is refused |
| JsonRoundTrip.QuoteRoundTrip | apps/control-plane/src/release-verifier-protocol-v2.ts:236-248 | a quoted string parses back to itself, control characters and supplementary planes included |
| JsonRoundTrip.NumberRoundTrip | apps/control-plane/src/release-verifier-protocol-v2.ts:236-248 | a printed integer parses back to itself |
| JsonCanonical.CanonicalObject | apps/control-plane/src/release-verifier-protocol-v2.ts:236-248 | the members of every object are printed once each, with keys that ascend by UTF-16 code units, where a proper prefix comes first |
| JsonCanonical.CanonicalShortest | apps/control-plane/src/release-verifier-protocol-v2.ts:236-248 | no text that parses to a value is shorter than its canonical text |
| JsonCanonical.QuoteCharacter | apps/control-plane/src/release-verifier-protocol-v2.ts:236-248 | a character is printed as itself unless it is a quote, a backslash or a control character, and an escape without a short form has lower-case digits |
| JsonCanonical.QuoteAppend | apps/control-plane/src/release-verifier-protocol-v2.ts:236-248 | a string is printed character by character between quotes |
| Unicode.BeforeExactly | apps/control-plane/src/release-verifier-protocol-v2.ts:241-241 | one text sorts before another if and only if its code units are a proper prefix of the other's or the first that differs is smaller |
| Unicode.UnitsRoundTrip | apps/control-plane/src/release-verifier-protocol-v2.ts:241-241 | decoding the UTF-16 code units of a text gives the text |
| Sorting.SortedKeysOfAnyEnumeration | apps/control-plane/src/release-verifier-protocol-v2.ts:236-248 | sorting the keys of an object gives one list however they were inserted |
| PartsConsole.PartsConsole.Sweep | apps/example-target/src/console.ts:103-109 | the three loops leave exactly the unexpired sessions, keys and confirmations, the last only with their session |
| PartsConsole.PartsConsole.Login | apps/example-target/src/console.ts:128-145 | the whole state after a login, in every branch |
| PartsConsole.PartsConsole.Logout | apps/example-target/src/console.ts:157-163 | the whole state after a logout |
| PartsConsole.PartsConsole.IssueConfirmation | apps/example-target/src/console.ts:193-207 | the whole state after a confirmation, in every branch |
| PartsConsole.PartsConsole.Reserve | apps/example-target/src/console.ts:210-263 | the answer and the whole state after a reservation: refused, repeated or made |
| PartsConsole.PartsConsole.Release | apps/example-target/src/console.ts:266-277 | the answer and the whole state after a release |
| PartsConsole.PartsConsole.ListParts | apps/example-target/src/console.ts:174-182 | the listed parts, and nothing but the sweep |
| PartsSafety.EffectConservesExactly | apps/example-target/src/console.ts:236-261 | the effect of a reservation conserves stock if and only if its identifier replaces no outstanding reservation; a repeated identifier breaks conservation |
| PartsSafety.GiveBackConserves | apps/example-target/src/console.ts:270-275 | a release gives back exactly what was taken: the floor at zero is never reached |
| PartsSafety.ReleaseConserves | apps/example-target/src/console.ts:266-277 | any release, in any branch, keeps stock conserved |
| PartsSafety.ReleaseIdempotent | apps/example-target/src/console.ts:266-277 | releasing again changes nothing and answers the same |
| PartsSafety.ReserveFailureAtomic | apps/example-target/src/console.ts:216-238 | a refused reservation changes nothing but what the sweep at its start removes |
| PartsSafety.ReleaseFailureAtomic | apps/example-target/src/console.ts:267-272 | the same for a refused release |
| PartsSafety.SweptKeeps | apps/example-target/src/console.ts:103-109 | the sweep leaves stock, reservations and every unexpired entry alone |
| PartsSafety.SessionWindow | apps/example-target/src/console.ts:136-144 | one sweep after a login finds the session until its lifetime has passed and not after |
| PartsSafety.LogoutEnds | apps/example-target/src/console.ts:157-163 | after a logout the session can reserve nothing and holds no confirmation |
| PartsAccounts.SessionLasts | apps/example-target/src/console.ts:103-145 | over every run a session is found from its login until its lifetime has passed and not after, whatever is called in between, unless that logs it out or logs in under its token |
| PartsAccounts.EvidenceAccounting | apps/example-target/src/console.ts:193-263 | over every run with fresh confirmations no evidence makes two reservations; evidence spent on a reservation was issued to the same session for the same key and input, was unexpired at the sweep, and is gone |
| PartsRuns.RunConservesStock | apps/example-target/src/console.ts:210-277 | after any sequence of calls with fresh identifiers every part's reserved stock is the sum of its outstanding reservations and between zero and what is on hand, and every reservation has the identifier and the time of a call that asked for it |
| PartsRuns.AvailableNeverNegative | apps/example-target/src/console.ts:174-182 | over every run a listed part has available what is on hand and in no reservation, never less than zero |
| PartsRuns.ReservationsAreCreations | apps/example-target/src/console.ts:241-262 | over every run the reservations are, one for one and in order, what the calls that made them asked for and answered |
| PartsRuns.OncePerWindow | apps/example-target/src/console.ts:222-262 | over every run two reservations made under one user and key are at least the key's lifetime apart |
| PartsRuns.RepeatInWindow | apps/example-target/src/console.ts:225-229 | inside the lifetime the same input gets the stored result and another input a conflict, and neither has an effect |
| PartsRuns.ConfirmedUnderFreeKey | apps/example-target/src/console.ts:193-263 | over every run, whatever was reserved under other keys: a confirmed reservation under a key with none made within its lifetime is made if and only if it is marked confirmed and stock and room are there |
| PartsRuns.ReservedUnderFreeKey | apps/example-target/src/console.ts:210-262 | over every run, whatever was reserved under other keys: the answer to any reservation under a free key, with its result or the code that refuses evidence, stock or room, in this order |
| PartsRuns.ReserveInputExactly | apps/example-target/src/console.ts:216-223 | the checks of a reservation's input in their order, each with its code, and which members of the input are used |
| PartsRuns.EvidenceSpent | apps/example-target/src/console.ts:230-239 | evidence that makes a reservation was held by the session for this key and input, unexpired, and is then gone |
| PartsRuns.ConfirmedReservationIsMade | apps/example-target/src/console.ts:193-263 | a reservation asked for as it was confirmed, by the session that confirmed it, is made if and only if it is marked confirmed and stock and room are there |
| PartsRuns.RunBounded | apps/example-target/src/console.ts:111-113 | over every run no session, confirmation, key or reservation is kept beyond its capacity |
| PartsRuns.ReleasedForGood | apps/example-target/src/console.ts:266-277 | over every continuation of a run no reservation is dropped or changed except from reserved to released |
| PartsRuns.ReleasingAllRestores | apps/example-target/src/console.ts:265-277 | releasing every outstanding reservation in any order, with any repetitions, restores the seed stock |
| PartsListing.ListsExactly | apps/example-target/src/console.ts:174-182 | over every run the list holds, in the order of the seed, each part whose SKU or name holds the query, with what is on hand and in no reservation |
| Validation.TrimExactly | apps/example-target/src/validation.ts:32-37 | trimming answers the one text without blanks at its ends that is left of the text by removing blanks at its ends |
| Validation.BoundedExactly | apps/example-target/src/validation.ts:32-37 | a bounded string is accepted if and only if it is a text that keeps to its bounds once trimmed |
| Validation.KeyExactly | apps/example-target/src/validation.ts:72-80 | a key is accepted, as it is, if and only if it has 8 to 128 of the allowed characters |
| Validation.ReservationInputExactly | apps/example-target/src/validation.ts:47-60 | an input is accepted if and only if it has its four members and no others, each within its bounds, and each is used as what it is |
| Validation.ReservationRequestExactly | apps/example-target/src/validation.ts:61-70 | a confirmation request is accepted if and only if it names the tool and holds an input and a key and nothing else |
| Validation.ReservationFingerprintInjective | apps/example-target/src/validation.ts:82-84 | two fingerprints are equal if and only if SKU, quantity and order reference are |
| AcmeSupport.AcmeSupport.Sweep | apps/acme-support/src/app.ts:133-139 | the three loops leave exactly the unexpired entries |
| AcmeSupport.AcmeSupport.Login | apps/acme-support/src/app.ts:145-152 | the whole state after a login, in every branch |
| AcmeSupport.AcmeSupport.IssueConfirmation | apps/acme-support/src/app.ts:177-194 | the whole state after a confirmation, in every branch |
| AcmeSupport.AcmeSupport.CreateTicket | apps/acme-support/src/app.ts:196-229 | the answer and the whole state after a ticket: refused, repeated or made |
| AcmeSupport.AcmeSupport.ListTickets | apps/acme-support/src/app.ts:231-237 | the listed tickets, and nothing but the sweep |
| SupportRuns.TicketAccounting | apps/acme-support/src/app.ts:196-229 | over every run the tickets are, one for one, payments; each payment has its own confirmation, issued to the same session for the same key and input and unexpired at the sweep; no evidence pays twice |
| SupportRuns.OncePerWindow | apps/acme-support/src/app.ts:204-228 | over every run two tickets made under one user and key are at least the key's lifetime apart |
| SupportRuns.RepeatInWindow | apps/acme-support/src/app.ts:204-208 | inside the lifetime the same input gets the stored ticket and another input a conflict, and neither has an effect |
| SupportRuns.ConfirmedTicketIsMade | apps/acme-support/src/app.ts:177-229 | a ticket asked for as it was confirmed, by the session that confirmed it, is made if and only if there is room for it |
| SupportRuns.RunBounded | apps/acme-support/src/app.ts:141-143 | over every run no session, confirmation, key or ticket is kept beyond its capacity |
| SupportRuns.ConfirmedUnderFreeKey | apps/acme-support/src/app.ts:177-229 | over every run, whatever was made under other keys: a confirmed ticket under a key with none made within its lifetime is made if and only if there is room |
| SupportRuns.TicketUnderFreeKey | apps/acme-support/src/app.ts:196-229 | over every run, whatever was made under other keys: the answer to any ticket under a free key, with its result or the code that refuses evidence or room, in this order |
| SupportRuns.TicketsHaveOwnIds | apps/acme-support/src/app.ts:216-228 | over every run with fresh identifiers no two tickets share one, and each has the identifier and the time of a call that asked for it |
| SupportRuns.TicketChecksExactly | apps/acme-support/src/app.ts:196-203 | the checks of a ticket's input in their order, each with its code |
| SupportRuns.TicketRequestExactly | apps/acme-support/src/app.ts:177-184 | a confirmation request is accepted if and only if it names the tool and holds an input about the one order and a key and nothing else |
| SupportRuns.TicketFailureAtomic | apps/acme-support/src/app.ts:196-215 | a refused ticket changes nothing but what the sweep removes |
| SupportRuns.ListsEveryTicket | apps/acme-support/src/app.ts:231-237 | over every run the one order lists the first hundred tickets in the order they were made, any other order none |
| Validation.TicketInputExactly | apps/acme-support/src/app.ts:77-87 | an input is accepted if and only if it has its three members and no others, each within its bounds, and each is used as what it is |
| Validation.TicketFingerprintInjective | apps/acme-support/src/app.ts:94-96 | two fingerprints are equal if and only if the inputs are |
| Idempotency.ScopeExactly | apps/example-target/src/console.ts:224-224 | two results share a scope if and only if user and key are the same, for users without a colon and keys that may hold colons |
| Idempotency.FreeExactly | apps/example-target/src/console.ts:224-229 | an unexpired result stands under a user's key if and only if something was made under that key within its lifetime |
| Idempotency.StepKeepsOnce | apps/example-target/src/console.ts:222-261 | a step that stores a result only under a key with no unexpired one keeps results remembered and effects a lifetime apart |
| CandidateGate.DeriveVerification | apps/control-plane/src/releases.ts:671-764 | the candidate, the tests on it and the count of replays, in every branch, with a compiler that may throw or change its mind |
| CandidateGate.NarrowedIsUnblocked | apps/control-plane/src/releases.ts:687-712 | a candidate that is not the source itself was compiled from a list of plans with distinct names that is, by name and digest, a permutation of the unblocked capabilities |
| CandidateGate.CountReplays | apps/control-plane/src/releases.ts:731-742 | the loop counts the attempts that reproduce the candidate, stops at the first that does not and counts none when one throws |
| CandidateGate.MatchIsPermutation | apps/control-plane/src/releases.ts:784-794 | the sort-and-compare test passes if and only if the plans are, by name and digest, a permutation of capabilities that agree with their own plans |
| CandidateGate.ExactSelectionExactly | apps/control-plane/src/releases.ts:714-722 | the selection passes if and only if the plans have distinct names and are a permutation of the unblocked capabilities, of which there is one; the separate test of names decides nothing |
| CandidateGate.SelectedPlansThemselves | apps/control-plane/src/releases.ts:714-722 | where the digests of the compared plans do not collide, the selection passes if and only if the candidate's plans have distinct names and are, by name and canonical text, a permutation of the unblocked capabilities' own plans |
| CandidateGate.NarrowingSelects | apps/control-plane/src/releases.ts:687-722 | with a compiler that keeps what it accepts up to order and canonical form, a canonical source passes the selection once narrowed if and only if a capability is left unblocked and either the compiler accepts what is left or nothing was blocked |
| CandidateGate.UnblockedExactly | apps/control-plane/src/releases.ts:680-680 | the selected capabilities are exactly those that are not blocked |
| CandidateGate.SamePlansExactly | apps/control-plane/src/releases.ts:784-794 | two lists agree if and only if their pairs of name and digest are permutations of each other and each capability agrees with its own plan in name, risk tier and digest |
| CandidateGate.CanonicalExactly | apps/control-plane/src/releases.ts:687-698 | a source is canonical if and only if origins, names and plans agree with all capabilities and compiling its plans reproduces its code and digest |
| CandidateGate.KeptExactly | apps/control-plane/src/releases.ts:699-700 | the plans that are kept are exactly those whose name an unblocked capability has |
| Collections.FilterConcat | apps/control-plane/src/releases.ts:700-700 | the plans that are kept stay in their order |
| CandidateGate.NarrowedExactly | apps/control-plane/src/releases.ts:687-712 | the candidate is what the compiler makes of the kept plans of a canonical source, and in every other case the source |
| CandidateGate.ReplaysExactly | apps/control-plane/src/releases.ts:731-742 | all three replays pass if and only if each of the three compilations reproduces code and digest |
| ReleaseVerification.NormalizeChecks | apps/control-plane/src/release-verification.ts:955-977 | the loop accepts a list if and only if it has thirteen acceptable checks with distinct names, and returns it sorted |
| ReleaseVerification.NormalizedNames | packages/database/src/control-plane.ts:411-425 | by pigeonhole the names of an accepted list are, sorted, the thirteen required names themselves |
| ReleaseVerification.AttestReleaseCandidate | apps/control-plane/src/release-verification.ts:272-307 | the refusal or the attestation the specification gives, in every branch |
| ReleaseVerification.AttestExactly | apps/control-plane/src/release-verification.ts:766-783 | a report is attested if and only if it is there and its hash, integrity, release, origin, tools, loader, counts of requests, checks and policy are as asked; otherwise the answer names the first that is not |
| ReleaseVerification.FailuresExactly | apps/control-plane/src/releases.ts:644-668 | which failures are listed, by what was prepared and which of the named checks passed |
| ReleaseVerification.PassedExactly | apps/control-plane/src/release-verification.ts:285-287 | thirteen names passed if and only if every reported check passed, and then they are the required ones |
| ReleaseVerification.EligibleMeans | packages/evals/src/verify.ts:1-5 | no failure is listed if and only if all six conditions hold |
| ReleaseVerification.EligibleExactly | apps/control-plane/src/releases.ts:644-668 | the release is eligible if and only if what was prepared holds and every check passed |
| ReleaseVerification.GateExactly | apps/control-plane/src/releases.ts:644-764 | the gate as a whole, on any report: eligible if and only if the report is accepted, the plans are a permutation of the unblocked capabilities, code has its digest, origins agree, three compilations reproduce it, nothing leaks and every check passed |
| ReleaseVerification.RegisteredAsExpected | apps/control-plane/src/release-verification.ts:766-783 | in an accepted report the registered tools are exactly the expected ones, distinct and well-formed |
| ReleaseVerification.IdentityExactly | apps/control-plane/src/release-verification.ts:985-1007 | what the client would trust in its own context is what the gate accepts as identity, less what has unprinted dates, an unknown operation or more than two minutes |
| ReleaseVerification.EligibleRegistersItsPlans | apps/control-plane/src/releases.ts:614-640 | the tools an eligible release registers are, by name, the plans of its candidate |
| ReleaseVerification.AcceptedIdentityValid | apps/control-plane/src/release-verification.ts:985-1007 | whatever the protocol client accepts, the gate accepts as identity for the request's operation and for no other |
| Sorting.SortedEqualIffPermutation | apps/control-plane/src/releases.ts:780-782 | comparing two sorted lists decides whether they are permutations of each other |
| SourceIdentity.FramedInjective | packages/database/src/source-identity.ts:29-31 | a length prefix makes the field and what follows it readable again, whatever they contain |
| SourceIdentity.MaterialInjective | packages/database/src/source-identity.ts:23-33 | two materials are equal if and only if type, URL and configuration are |
| SourceIdentity.MaterialReads | packages/database/src/source-identity.ts:23-33 | a reader of length-prefixed fields gets type, URL and a text of the configuration back, in this order |
| SourceIdentity.ConfigurationObject | packages/database/src/source-identity.ts:7-20 | the members of every object are printed with array indices first, by number, and then all other keys by code units |
| SourceIdentity.IndexExactly | packages/database/src/source-identity.ts:7-20 | a key is an array index if and only if it is a number below 2^32 - 1 as it is printed |
| SourceIdentity.IdentityOrError | packages/database/src/source-identity.ts:23-33 | a source has an identity, the hash of its material, if and only if it has a type and a URL |
| SourceIdentity.ConfigurationInjective | packages/database/src/source-identity.ts:7-20 | two configurations have one text if and only if they are equal up to the order of keys, with index keys listed first by number |
| SourceIdentity.IdentityExactly | packages/database/src/source-identity.ts:23-33 | where the hashes of the two materials do not collide, two sources share an identity if and only if they are the same |
| Ownership.PrintedParses | apps/control-plane/src/website-user-handoff.ts:658-668 | what the control plane prints, line ends literal or escaped, parses back to exactly the printed text if what is stored fits 1024 units, and to nothing otherwise |
| Ownership.PrintsExactly | apps/control-plane/src/website-user-handoff.ts:640-668 | a text is printed if and only if the token is proper and the challenge expires within the next fifteen minutes |
| Ownership.ParsesExactly | apps/example-target/src/ownership-verification.ts:12-25 | any stored text is accepted, as the proof it says, if and only if it has at most 1024 units and says, with escaped line ends resolved and returns dropped, a valid proof in three lines and then only blanks |
| Ownership.CleanStep | apps/example-target/src/ownership-verification.ts:15-15 | the two replacements read the text once: an escaped line end is a line end, a return is dropped, everything else stays |
| Ownership.StoredParses | apps/example-target/src/ownership-verification.ts:12-25 | the same for any mixture of line ends, with carriage returns, and without the last one |
| Ownership.ParsedParsesAgain | apps/example-target/src/ownership-verification.ts:12-25 | a parsed proof parses again as itself unless adding the dropped line end made it too long |
| OperationKeys.OperationKey | apps/control-plane/src/client-workflow.ts:76-97 | the key and the whole storage after asking, on any stored text, including text that is no record or no JSON |
| OperationKeys.CompleteOperation | apps/control-plane/src/client-workflow.ts:99-107 | the whole storage after completing, on any stored text, including text that is no record or no JSON |
| OperationKeys.ClearClientWorkflow | apps/control-plane/src/client-workflow.ts:109-115 | the downward loop leaves exactly the items that are neither the workflow nor an operation, in their order |
| OperationKeys.SameKeyUntilCompleted | apps/control-plane/src/client-workflow.ts:76-115 | over every sequence of events an operation keeps its key for a body until it is completed with that key, asked with another body, or all is cleared |
| OperationKeys.CompletedExactly | apps/control-plane/src/client-workflow.ts:99-107 | completing removes a readable record if and only if the key is the recorded one: a stale key never removes a newer record |
| OperationKeys.ClearedExactly | apps/control-plane/src/client-workflow.ts:109-115 | clearing removes every prefixed key and the workflow key and nothing else |
| OperationKeys.StorageKeyInjective | apps/control-plane/src/client-workflow.ts:82-82 | two operations share a record if and only if they are the same |
| OperationKeys.AskedRecords | apps/control-plane/src/client-workflow.ts:94-96 | after asking, the record holds the body and the key that was answered |

## Left out

- HTTP, sockets, TLS, the browser verifiers, deadlines, logging and error-to-status maps: what an evaluation observes is a parameter, a deadline that passes is its absence.
- Cryptography: signatures and digests are ideal, constant-time comparison is equality.
- Lone surrogates: strings are sequences of Unicode scalar values, so `encodeURIComponent` never throws and UTF-8 decoding of a body is the identity.
- JSON numbers other than safe integers, and `undefined`: texts with fractions, exponents or larger integers do not parse in the model, except that `OperationKeys` reads any stored text, with a stand-in for values the model does not have.
- Objects are maps, so two objects that differ only in the order of their keys are one value; `ParseEncode` covers every order an encoder may print.
- ReplayStore.EntryMap.Admit: the refusal of an expiry or a time that is not a finite number is not modelled; both are integers.
- ReplayStore.Compact: the order in which the map lists its entries is left arbitrary instead of insertion order; every result holds for any order.
- A client that restarts: it forgets the requests it awaits together with its guard.
- A partially written line of the replay file, and a file shared by two processes.
- VerifierServer.VerifyVerifierRequest: exhausting memory or stack while parsing a body is not modelled.
- PartsConsole.PartsConsole.Login: the comparison with the operator's credentials is a parameter, and session and token are given.
- PartsConsole.PartsConsole.Reserve: a clock outside the range of dates, where `toISOString` throws after stock was taken, is not modelled.
- PartsConsole.PartsConsole.ListParts: lower-casing is a parameter; `getPart`, `getReservation`, `listReservations`, `requestToken` and `deleteAccount` only sweep and read, and are one kind of call in `PartsRuns`.
- AcmeSupport.AcmeSupport.Login: session tokens are given; `searchOrders`, `getOrderStatus` and `deleteAccount` only sweep and read, and `openApiDocument` is not modelled.
- ReleaseVerification.AttestReleaseCandidate: the size and form checks on its own input, the port and its identity, and the wording of refusals are not modelled; a report has the types it declares, but any text as status and any code.
- CandidateGate.DeriveVerification: the manifest schema, the compiler, the canonical text of a plan and the search for secrets are parameters; the fields that are always the same are left out.
- Installation verification, publication, and the repository code that stores a verification.
- Ownership.PrintedParses: the DNS variant and the other states of a challenge are not modelled; origins are assumed to be printable ASCII without a backslash.
- OperationKeys.OperationKey: storage that is unavailable or full is not modelled; keys keep their place when they are set again or others are removed.
- Persisted workflows beyond their key, reconciliation, worker leases, pull requests and the WebMCP compiler.
