# Stronghold gateway: a verified model

Stronghold is a control-plane gateway that lets agents and phones drive remote
machines. This project models the parts of it that are algorithms or protocols
and proves properties of them for all inputs and all runs.

- **CBOR and attestation** (`Prelude`, `Cbor`, `CborEncoding`, `CborRoundTrip`,
  `Base64`, `Attestation`, `AttestationOrder`, `AttestationRoundTrip`,
  `AttestationReference`, `AttestationPanics`). The hand-written parser is a
  method proved against a function with three outcomes: a value, an error, or a
  panic where the Rust code indexes out of bounds or reserves too much.
  `CborEncoding.Encodes` is an independent encoding relation after RFC 8949
  (sections 3, 3.1 and 3.3), and the parser is shown to decide it. On top of it,
  registration is shown to recover what was reported,
  to accept nothing else, and to panic on exactly one class of responses.
- **Assertions** (`Assertion`, `AssertionRuns`). The credentials table as a
  class whose methods check an assertion and advance the counter, and what the
  replay check guarantees over runs of whole calls and over every interleaving
  of their database steps.
- **Audit log** (`HybridSig`, `Audit`, `AuditTamper`, `AuditRuns`,
  `AuditRotation`). The append protocol with its two database steps, key
  rotation on the table that all tenants share, and the three verifiers. SHA-256
  and the two signature schemes are function parameters; their laws are
  hypotheses, and collisions are exhibited and not excluded.
- **Shell scripts** (`PosixShell`, `ShellPrinting` in `PosixShell.dfy`, `Exec`,
  `Git`, `CloneDirectory`). The builders as methods that grow a string, and a
  reader for the part of the Shell Command Language of POSIX.1-2017 that they use
  (sections 2.2.1, 2.2.2, 2.3, 2.9.1 and 2.9.3). The reader answers None outside
  that part, and on a NUL, which no argument can carry.
- **Message bus** (`Messages`, `MessagePolling`, `Timestamps`). The table, the
  stream with its watermark, and polling by time texts.
- **Credential vault** (`Vault`, `VaultHistory`, `VaultRotation`). The handlers
  as methods of a store over encrypted rows, refined to a table in the clear, and that table to
  the history of what was last written. Runs may change the audit keys, from
  which the vault's keys are derived. `VaultRotation` interleaves the two steps
  of rotations with other requests.
- **Image placeholders and `git status`** (`Placeholder`, `Porcelain`,
  `PorcelainRoundTrip`, `GitStatus`). The status parser inverts the form its
  comment describes; on the form git prints, it is right on exactly the outputs
  that `GitStatus.GitStatusIsReadIff` names.

A method with a loop or a changing field stands for a source function that has
one, and is proved equal to a specification function; the lemmas then say what
that function means. Integer widths are explicit where they matter: the wrapping
cast of CBOR integers from 2^63, 32-bit counters, 64-bit counts with overflow.
Rust strings are `string` where only characters matter and UTF-8 `Bytes` with a
validity predicate where bytes do.

Where the code and its own comments differ, the model follows the code:

- `rotate_audit_keys` is documented as if verification used the key whose
  fingerprint matches each entry (gateway/src/audit/log.rs:110-112). The code
  verifies with one key, and it signs every tenant's entries with one set of
  keys while recording a rotation under one tenant. `AuditRotation` proves what
  one key reports for each tenant and exactly when following the fingerprints
  would accept a tenant's log.
- `load_credential_counter` and `update_credential_counter` are separate
  database steps; `AssertionRuns` proves when the replay check holds across
  overlapping calls and exhibits the race where it does not.
- The vault's keys are derived from the audit keys (gateway/src/crypto/vault.rs:33-39),
  so new audit keys make every stored value unreadable until it is rotated;
  `VaultHistory` states exactly which reads fail.
- `counter_is_valid` passes when either counter is zero; step 21 of section 7.2
  of WebAuthn Level 2 passes only when both are. `Assertion.CodeAndStandard`
  and `Assertion.ZeroReopens` state the difference.
- The shell tests at gateway/src/routes/exec.rs:644-670 expect quoted
  environment keys; the code leaves keys as they are (exec.rs:342-346).
- `derive_clone_dir` is documented as matching git
  (gateway/src/routes/git.rs:1160-1161); `CloneDirectory.DerivedIsGitsIff` gives
  the texts on which it does. They exclude a trailing slash or space, a colon in
  the last segment, and a lone segment with an @.
- The audit message joins its fields with pipes (gateway/src/audit/log.rs:53-56)
  and the exec handler logs the caller's command in the payload
  (gateway/src/routes/exec.rs:155-167); `AuditTamper.RewritableIffPipes` says
  which entries the hash and the signatures do not pin down.
- A rotation answers success without looking at what its update changed
  (gateway/src/routes/credentials.rs:394-408);
  `VaultRotation.RotatedIsStoredIff` says when the value was stored.
- `parse_status_v2` takes a blank as "unchanged" (gateway/src/routes/git.rs:1257-1259)
  where git writes a dot; `GitStatus.GitStatusIsReadIff` gives the condition and
  `GitStatus.UnstagedIsStaged` an input.
- The timestamp poll is documented as returning what is newer. It compares
  texts: a message of the same second as the last one seen is lost to it, and
  with `since` in the ISO form (as at gateway/src/routes/messages.rs:651) so is
  everything later on the same day.

## Model

| member | source | states |
|---|---|---|
| Cbor.CborParse | gateway/src/crypto/webauthn.rs:846-922 | the recursive parser with its two item loops returns, on every input, the value and the untouched rest, an error, or a panic (on a cut head, or on a count beyond what a vector can be reserved for), as the parsing function `Parse` does |
| CborEncoding.ParseIffEncodes | gateway/src/crypto/webauthn.rs:846-922 | the parser returns (v, t) exactly on the strings that are an RFC 8949 encoding of v followed by t, where the relation admits non-shortest heads and the major-7 fallback to an unsigned number |
| CborEncoding.ParseIsSound | gateway/src/crypto/webauthn.rs:846-922 | after a success the rest is a strictly shorter suffix, the consumed prefix encodes the value, and the value's nodes and string bytes number at most the bytes consumed |
| CborEncoding.ParseIsComplete | gateway/src/crypto/webauthn.rs:846-922 | every encoding of a value, with anything after it, is read back as that value and that tail |
| CborEncoding.ParseIsLocal | gateway/src/crypto/webauthn.rs:846-922 | bytes added after a successful parse change only the remainder |
| CborEncoding.EncodingsArePrefixFree | gateway/src/crypto/webauthn.rs:846-922 | no accepted encoding is a prefix of another, and no string encodes two values |
| CborEncoding.ItemsAreSound | gateway/src/crypto/webauthn.rs:891-899 | the array loop reads exactly the claimed number of items and consumes exactly their encodings |
| CborEncoding.EntriesAreSound | gateway/src/crypto/webauthn.rs:900-912 | the map loop reads exactly the claimed number of key/value pairs and consumes exactly their encodings |
| CborRoundTrip.EncoderEncodes | gateway/src/crypto/webauthn.rs:846-922 | the preferred serialization of every supported value is an encoding of it |
| CborRoundTrip.RoundTrip | gateway/src/crypto/webauthn.rs:846-922 | for every supported value and every trailing string, parsing the preferred serialization gives back exactly the value and the tail |
| CborRoundTrip.ParsePanicsIffBroken | gateway/src/crypto/webauthn.rs:855-904 | the parser panics exactly on inputs that, read item by item, end inside the argument bytes of a head or announce a container too long to reserve |
| CborRoundTrip.HugeCountPanics | gateway/src/crypto/webauthn.rs:891-904 | an array or map head of 2^63 items or more panics, whatever follows it |
| Base64.DecodeEncode | gateway/src/crypto/webauthn.rs:407-420 | the unpadded URL-safe and standard engines decode what they encode, for every byte string |
| Base64.DecodedIsEncoding | gateway/src/crypto/webauthn.rs:407-420 | an engine accepts nothing but the encoding of its result |
| Base64.DecodePaddedIff | gateway/src/crypto/webauthn.rs:407-420 | a padded engine returns b exactly on the padded encoding of b |
| Base64.EnginesAgree | gateway/src/crypto/webauthn.rs:407-420 | no string accepted by two of the three engines decodes to different bytes |
| Base64.DecodeFlexibleIff | gateway/src/crypto/webauthn.rs:407-420 | the fallback decoder returns b exactly on the unpadded URL-safe, the padded standard and the padded URL-safe encoding of b |
| Attestation.ParseAttestationObject | gateway/src/crypto/webauthn.rs:967-1003 | the loop over the object's entries yields the last fmt, authData and attStmt, or the first error |
| Attestation.CoseKeyToSec1 | gateway/src/crypto/webauthn.rs:1045-1084 | the loop over the key's entries yields 04 then x then y for an EC2 P-256 key with 32-byte coordinates, or the source's error |
| Attestation.VerifyPackedAttestation | gateway/src/crypto/webauthn.rs:1218-1277 | the loop over the statement's entries and the checks after it reach the verdict specified for packed attestation |
| AttestationOrder.ObjectIsLookedUp | gateway/src/crypto/webauthn.rs:967-1003 | reading the entries in a loop equals looking up the last value of each of the three names, for well-typed entries |
| AttestationOrder.KeyIsLookedUp | gateway/src/crypto/webauthn.rs:1045-1084 | the same for the four labels of a COSE key, including the wrap-around cast of labels |
| AttestationOrder.StatementIsLookedUp | gateway/src/crypto/webauthn.rs:1218-1252 | the same for the fields of a packed statement |
| AttestationOrder.ObjectIgnoresOrder | gateway/src/crypto/webauthn.rs:967-1003 | two orders of the same distinct entries give the same object, or errors in both |
| AttestationOrder.KeyIgnoresOrder | gateway/src/crypto/webauthn.rs:1045-1084 | two orders of the same distinct entries give the same key, or errors in both |
| AttestationOrder.PackedIgnoresOrder | gateway/src/crypto/webauthn.rs:1218-1277 | two orders of the same distinct entries give the same verdict, or errors in both |
| AttestationRoundTrip.CredentialIsRead | gateway/src/crypto/webauthn.rs:1012-1040 | the credential id, counter, aaguid and key bytes laid out in authData are cut out again, and the header checks pass |
| AttestationRoundTrip.AttestationInverse | gateway/src/crypto/webauthn.rs:1107-1213 | whatever the entry order and head widths on the wire, verification of a reported ceremony comes down to its format's own verdict, and success stores exactly the reported id, key, aaguid and counter |
| AttestationRoundTrip.PackedIffSigned | gateway/src/crypto/webauthn.rs:1218-1277 | packed self-attestation is accepted exactly when the point and signature decode and the signature over authData and the client data hash verifies under the reported key |
| AttestationRoundTrip.VerificationIgnoresOrder | gateway/src/crypto/webauthn.rs:1107-1213 | reordering or re-encoding the attestation object changes nothing but the error |
| AttestationRoundTrip.AcceptanceIsEarned | gateway/src/crypto/webauthn.rs:1107-1213 | everything that an accepted response stores stands in its own authData, under this ceremony's challenge, origin and RP id, with UV and AT set and, for packed, a verifying signature |
| AttestationReference.KeyMapEncoding | gateway/src/crypto/webauthn.rs:2589-2619 | the repository's own key builder writes the preferred serialization of the five-entry key map |
| AttestationReference.RegistrationRoundTrip | gateway/src/crypto/webauthn.rs:1107-1213 | for every aaguid, id under 65536 bytes, 32-byte x and y and 32-bit counter, a "none" registration is stored as exactly those values with the key 04 then x then y |
| AttestationPanics.CredentialPanicsIff | gateway/src/crypto/webauthn.rs:1045-1084 | the stage after the header panics exactly when the credential is cut out and its COSE key bytes are broken; reading the key and judging the statement never panic |
| AttestationPanics.VerifyPanicsIff | gateway/src/crypto/webauthn.rs:1107-1213 | verification panics exactly when the client data passes and the decoded object is broken, or when object, header and credential pass and the COSE key bytes are broken |
| AttestationPanics.OneBytePanics | gateway/src/crypto/webauthn.rs:855-867 | with any client data that passes, the one-byte object 0x18 makes verification panic |
| Assertion.Credentials.CheckAssertion | gateway/src/crypto/webauthn.rs:245-353 | the checks of the source, in its order and on the table, decide exactly `Accepts`, and change nothing |
| Assertion.Credentials.AdvanceCounter | gateway/src/crypto/webauthn.rs:772-794 | the update writes the asserted count to every row of the credential, or nothing without a connection |
| Assertion.Credentials.VerifyAssertion | gateway/src/crypto/webauthn.rs:245-371 | uninterrupted, an assertion is accepted as the checks say, and only an accepted one advances the counter |
| Assertion.AcceptedIff | gateway/src/crypto/webauthn.rs:245-371 | a call that encodes some evidence is accepted exactly when the evidence is for this approval, by a verified user of this RP, with a passing count where the stored one is served, and signed under the stored key |
| Assertion.AcceptanceIsEarned | gateway/src/crypto/webauthn.rs:245-371 | conversely every accepted call encodes such evidence |
| Assertion.AuthDataIsRead | gateway/src/crypto/webauthn.rs:207-231 | the RP id hash, flags and counter laid out in authenticator data are read back, and the strict and the fallback decoder see the same bytes |
| Assertion.CounterAfter | gateway/src/crypto/webauthn.rs:745-790 | one call sets its credential's stored counter to the accepted count, or leaves it, and never touches another credential's |
| Assertion.CodeAndStandard | gateway/src/crypto/webauthn.rs:796-801 | the code lets through exactly what WebAuthn Level 2 section 7.2 step 21 allows, and in addition a zero after a count |
| Assertion.AcceptedCountsChain | gateway/src/crypto/webauthn.rs:321-361 | over every run of calls one after another the accepted counts of a credential pass the check one against the next and the stored counter is the last of them, whatever other credentials do |
| Assertion.ReplayProtection | gateway/src/crypto/webauthn.rs:321-361 | over those runs consecutive accepted non-zero counts strictly increase, a count returns only after an accepted zero, and k acceptances without a zero move the stored counter at least k, so there are fewer than 2^32 |
| Assertion.ZeroReopens | gateway/src/crypto/webauthn.rs:796-801 | a credential that asserts a count and then zero can assert the same count again with the same response |
| AssertionRuns.PassedWasLoaded | gateway/src/crypto/webauthn.rs:321-361 | in every interleaving of the database steps of overlapping calls, a call that updates passed the counter check against the table of its own last load, and has not updated since |
| AssertionRuns.ChainedIffStillValid | gateway/src/crypto/webauthn.rs:321-361 | in every interleaving the counts accepted for a credential pass the check one against the next exactly when each update's count still passes against the counter stored by then |
| AssertionRuns.ConcurrentReplayProtection | gateway/src/crypto/webauthn.rs:321-361 | if no update of a credential falls between another call's load and update for it, every interleaving has the full replay protection of sequential runs |
| AssertionRuns.RaceAcceptsTwice | gateway/src/crypto/webauthn.rs:321-361 | two calls with one non-zero count that both load before either updates are both accepted, though one after the other the second is refused |
| HybridSig.VerifySigned | gateway/src/crypto/hybrid_sig.rs:202-300 | verifying a produced dual signature comes down to the two primitive verifications, or to Ed25519 alone for a signer without an ML-DSA seed |
| Audit.VerifyWithPool | gateway/src/audit/verify.rs:200-279 | the loop reports, in row order, the chain break, hash mismatch and signature failure of each row |
| Audit.VerifyTenant | gateway/src/audit/verify.rs:89-180 | the two passes report all chain errors and then all signature failures, and succeed exactly on an empty report |
| Audit.LocalAuditVerify | cli/src/main.rs:1444-1477 | the offline loop reports exactly the chain errors and verifies exactly when there are none |
| Audit.Table.Entry | gateway/src/audit/log.rs:29-98 | an uninterrupted call appends one row that continues the tenant's chain from its newest row |
| Audit.Table.RotateAuditKeys | gateway/src/audit/log.rs:117-146 | a rotation appends one entry signed with the old keys and hands out the new ones |
| AuditTamper.ReportSplits | gateway/src/audit/verify.rs:235-272 | filtered, the single-pass report is in order the report of the chain pass and of the signature pass |
| AuditTamper.VerifiersAgree | gateway/src/audit/verify.rs:89-180 | with the same keys the two gateway verifiers find the same errors and verdict; the keyless verdict is "nothing but signature failures", which is also the offline verifier's |
| AuditTamper.PayloadChanged | gateway/src/audit/verify.rs:235-272 | in a clean log a changed payload is reported at its own row only, as a hash mismatch unless the two messages collide |
| AuditTamper.HashChanged | gateway/src/audit/verify.rs:235-272 | a changed stored hash is reported as a mismatch at its row and a break at its successor, and nowhere else |
| AuditTamper.RowDeleted | gateway/src/audit/verify.rs:235-272 | a deleted row is reported only as a break at its successor, and deleting the newest rows is not reported at all |
| AuditTamper.MessageInjective | gateway/src/audit/log.rs:53-56 | two entries whose time, machine and event hold no pipe (nor the tenants, unless they are the same), with previous hashes of one length and one message, are equal in all six fields, whatever their payloads hold |
| AuditTamper.PipesConfuse | gateway/src/audit/log.rs:53-56 | with a pipe in the machine or the event two different entries have the same message, for all strings |
| AuditTamper.PayloadPipeConfuses | gateway/src/audit/log.rs:53-56 | with a pipe in the payload too: its first part can stand in the event instead |
| AuditTamper.DeterminedIffPipeFree | gateway/src/audit/log.rs:53-56 | for a time without a pipe, one tenant and one previous hash: the message determines time, machine, event and payload, against any other four strings, exactly when machine, event and payload hold no pipe |
| AuditTamper.TamperEvidence | gateway/src/audit/verify.rs:232-272 | any two logs that pass the chain and hash checks and end in one hash have the same messages, previous hashes and hashes row by row, and the same hashed columns in each row where one log holds no pipe or both hold none before the payload; or a collision or a preimage of the initial zeros is exhibited |
| AuditTamper.RewriteIsCleanIff | gateway/src/audit/verify.rs:232-272 | a row of a clean log with other time, machine, event or payload is accepted exactly when its message has the stored hash and the stored signature verifies over it |
| AuditTamper.RewritableIffPipes | gateway/src/audit/verify.rs:232-272 | for a time without a pipe: a row of a clean log can be rewritten under the same message, and so under an empty report, exactly when its machine, event or payload holds a pipe; any other unreported rewriting exhibits a collision |
| AuditTamper.CommandPipeRewrites | gateway/src/routes/exec.rs:155-167 | a command with a pipe is enough: its cmd_exec entry can be rewritten as one of another event in a log that stays clean |
| AuditRuns.RowMatchesItsCall | gateway/src/audit/log.rs:41-89 | in every interleaving each row holds its own call's fields, is numbered by position, and carries the hash of those fields and its call's signature over them |
| AuditRuns.NeverAMismatch | gateway/src/audit/log.rs:41-89 | in every interleaving no verifier reports a hash mismatch, and a row fails a key's signature check only if the key rejects its writer's signature |
| AuditRuns.VerifiableIffFresh | gateway/src/audit/log.rs:41-89 | a tenant's log verifies exactly when every write for it found the last hash unchanged since its read |
| AuditRuns.ExclusiveIsVerifiable | gateway/src/audit/log.rs:41-89 | if no insert for a tenant falls between another call's read and insert for it, its log verifies however tenants interleave |
| AuditRuns.VerifiableIffExclusive | gateway/src/audit/log.rs:41-89 | and only then, when the tenant's hashes are distinct |
| AuditRuns.RaceBreaksTheChain | gateway/src/audit/log.rs:41-89 | two calls of one tenant that both read before either inserts leave a log that every verifier reports as broken at the second row |
| AuditRotation.Perform | gateway/src/audit/log.rs:117-146 | performing any tenants' entries and rotations on any table, under the gateway's one set of keys, appends exactly the specified rows and ends with the last new keys |
| AuditRotation.OneKeyReport | gateway/src/audit/verify.rs:235-272 | over every run of all tenants on the shared table each tenant's chain stays unbroken, and the verifier under one key reports signature failures at exactly the tenant's rows that other keys signed, by their numbers in the table |
| AuditRotation.KeyClearsIff | gateway/src/audit/verify.rs:262-271 | a key clears a tenant's log exactly when it was the gateway's key at each of the tenant's rows |
| AuditRotation.SomeKeyClearsIff | gateway/src/audit/verify.rs:262-271 | some key clears a tenant's log exactly when no rotation to other keys, by any tenant, falls between two of its rows |
| AuditRotation.FollowingAcceptsIff | gateway/src/audit/log.rs:110-112 | the documented verifier, which follows the fingerprints in a tenant's own rotation entries, accepts the tenant's log exactly when none of its rows was signed after a rotation that another tenant's log records, to keys its own log does not reach |
| AuditRotation.FollowingAcceptsOneTenant | gateway/src/audit/log.rs:110-112 | when all rotations are recorded under one tenant, following accepts that tenant's log over every run |
| AuditRotation.OtherTenantIsStranded | gateway/src/audit/log.rs:117-146 | after one tenant records a rotation the next row of any other tenant is stranded |
| ShellPrinting.QuoteIsRead | gateway/src/routes/exec.rs:382-394 | a quoted string, with anything readable after it, is read by a POSIX shell as the same characters, all quoted, in the same word |
| ShellPrinting.ItemsAreTokens | gateway/src/routes/exec.rs:323-357 | printed words separated by blanks are read as one token each, in order |
| ShellPrinting.CommandsAreRead | gateway/src/routes/exec.rs:323-357 | a printed AND-list of commands is read as the list of simple commands that its words mean |
| ShellPrinting.TokensHoldNoNul | gateway/src/routes/exec.rs:382-394 | no text with a NUL is tokenized at all |
| ShellPrinting.TemplatesAreRead | gateway/src/routes/git.rs:132-147 | a list of literal and quoted words is read as exactly those words, or not at all if a quoted string holds a NUL |
| Exec.BuildQuoted | gateway/src/routes/exec.rs:382-394 | the character loop produces the quoted form |
| Exec.BuildCommand | gateway/src/routes/exec.rs:323-357 | the vector is the plain one without directory and environment, and otherwise sh -c with the script for some order of the environment that lists each entry once |
| Exec.ScriptRunsIntended | gateway/src/routes/exec.rs:323-357 | for every command, arguments, directory and environment that can be expressed, in any order of the environment, the script reads as an optional cd and one simple command with those assignments and words |
| Exec.ScriptRunsIntendedIff | gateway/src/routes/exec.rs:342-346 | the script reads as intended exactly when every environment name is a POSIX name and no string holds a NUL |
| Exec.BadNameRunsSomethingElse | gateway/src/routes/exec.rs:342-346 | a single variable whose name is not a POSIX name is not assigned: the script reads as one command whose first word is name=value, for every such plain name, value, command and arguments |
| Exec.WrappedAndPlainAgree | gateway/src/routes/exec.rs:323-357 | the unwrapped vector holds the words that the wrapped script would run |
| CloneDirectory.DerivedIsEmptyIff | gateway/src/routes/git.rs:1162-1165 | the derived directory is empty exactly on the empty text, .git, and texts that end in a slash or in /.git |
| CloneDirectory.DerivedIsGitsIff | gateway/src/routes/git.rs:1155-1165 | it is the directory that git names (skipping authentication data, trailing spaces and slashes, one /.git, a port, everything up to the last slash or colon, and one .git, then squeezing blanks) exactly on ordinary texts: a last segment other than .git, without a colon, tidy but for a .git, and no @ in a lone segment |
| CloneDirectory.CloneEntersItsDirIff | gateway/src/routes/git.rs:115-142 | without a path, and with any token that holds no slash, the clone script enters the directory that git clones its URL into exactly when the repository without its scheme is ordinary |
| CloneDirectory.CloneDirIsRepoName | gateway/src/routes/git.rs:1155-1165 | a path ending in /name.git, or in /name for a name without that suffix, is cloned into name, and is ordinary, for every tidy name without a colon |
| CloneDirectory.NamelessEndings | gateway/src/routes/git.rs:1155-1165 | a slash or /.git after any ordinary text leaves no directory name, where git still gives the name it gives without it |
| Git.BuildClone | gateway/src/routes/git.rs:132-147 | the builder's string is the clone script's text |
| Git.BuildBranch | gateway/src/routes/git.rs:233-244 | the builder's string is the branch script's text |
| Git.BuildCommit | gateway/src/routes/git.rs:323-346 | the builder's string is the commit script's text, with -A or the listed files |
| Git.BuildPush | gateway/src/routes/git.rs:435-444 | the builder's string is the push script's text, with the defaults origin and HEAD |
| Git.CloneReadsBack | gateway/src/routes/git.rs:132-147 | for every request the clone script reads as git clone of the one-word URL and path and, for a branch, cd to the clone directory and git checkout; with a NUL anywhere it is not read at all |
| Git.BranchReadsBack | gateway/src/routes/git.rs:233-244 | the same for an optional cd and git checkout -b with an optional start point |
| Git.CommitReadsBack | gateway/src/routes/git.rs:323-346 | the same for an optional cd, git add with -A or each file as one word, and git commit -m |
| Git.PushReadsBack | gateway/src/routes/git.rs:435-444 | the same for an optional cd and git push with its remote and branch |
| Messages.Bus.PostMessage | gateway/src/routes/messages.rs:113-150 | a post appends one row with the next id and returns its id and time |
| Messages.Bus.PollMessages | gateway/src/routes/messages.rs:179-223 | a poll returns, in id order, the rows for the machine or for all, on the channel, whose time text is greater than since, for any two texts |
| Messages.Bus.FetchNewMessages | gateway/src/routes/messages.rs:408-445 | a fetch returns, in id order, the matching rows after the watermark |
| Messages.Stream.Poll | gateway/src/routes/messages.rs:276-302 | a poll tick takes over the fetched rows, or changes nothing when the database fails |
| Messages.Stream.Yield | gateway/src/routes/messages.rs:279-290 | a yield hands out the next fetched row and advances the watermark |
| Messages.ExactlyOnceStep | gateway/src/routes/messages.rs:257-309 | every post, poll, failed poll and yield keeps: what was yielded is exactly the matching rows up to the watermark, what is held is the rest of the last poll |
| Messages.StreamDelivers | gateway/src/routes/messages.rs:257-309 | over every interleaving of them the stream has yielded exactly the matching rows up to its watermark, in id order |
| Messages.NoDuplicatesNoGaps | gateway/src/routes/messages.rs:257-309 | no message is yielded twice or skipped, and once a poll's rows are out everything that was in the table at that poll has arrived |
| Messages.FailedPollsLoseNothing | gateway/src/routes/messages.rs:292-302 | a run reaches the same state with its failed polls left out |
| MessagePolling.PollingCharacterised | gateway/src/routes/messages.rs:179-223 | with time texts that never go back, a client that passes the latest time it has seen receives nothing twice and misses exactly the messages stored under the very time text it was holding |
| MessagePolling.SameSecondIsLost | gateway/src/routes/messages.rs:179-223 | such a message is lost for good |
| MessagePolling.IsoPollMissesItsDay | gateway/src/routes/messages.rs:72-75 | against stored times a since in the stored form selects later seconds, and one in the ISO form later days only; what the ISO form misses is exactly what was stored later on its own day |
| Timestamps.StoredOrder | gateway/src/routes/messages.rs:57-58 | stored times compare as texts as they do as times |
| Timestamps.IsoOrder | gateway/src/routes/messages.rs:651-656 | an ISO time compares with a stored one by the day alone |
| Vault.Store.CreateCredential | gateway/src/routes/credentials.rs:132-195 | a create stores the value encrypted under the tenant's key, or answers 409 or 500 and changes nothing |
| Vault.Store.GetCredential | gateway/src/routes/credentials.rs:249-320 | an admin read answers with the decrypted row, 404 or 500 |
| Vault.Store.DeleteCredential | gateway/src/routes/credentials.rs:326-352 | a delete removes the row with that id, or answers 404 |
| Vault.Store.LookUpRotation | gateway/src/routes/credentials.rs:370-387 | the lookup of a rotation finds the row under the id, or none |
| Vault.Store.WriteRotation | gateway/src/routes/credentials.rs:389-400 | the update writes the value, encrypted for the tenant that was looked up, to the row under the id, or nothing if it is gone |
| Vault.Store.RotateCredential | gateway/src/routes/credentials.rs:360-409 | uninterrupted, a rotation re-encrypts the new value for the row's tenant, or answers 404 |
| Vault.Store.AgentGetCredential | gateway/src/routes/credentials.rs:427-550 | an agent read answers with the decrypted row of its machine's tenant, or 401, 403, 404 or 500 |
| Vault.ServeAll | gateway/src/routes/credentials.rs:132-550 | the handlers serving any requests one after the other, with restarts under other audit keys, give exactly the answers and leave exactly the table of the run |
| Vault.ServeSame | gateway/src/routes/credentials.rs:132-550 | each request is answered as by a table that stores its values another way, and the tables stay images of each other |
| Vault.VaultRefinesPlain | gateway/src/crypto/vault.rs:33-81 | over every run under one secret the vault answers exactly as a table that keeps its values in the clear |
| Vault.VaultRefinesLocked | gateway/src/crypto/vault.rs:33-81 | over every run with changes of the audit keys, if nothing sealed under one opens under another, it answers exactly as a table in the clear that gives a value out only while the secret it was written under is in use |
| VaultHistory.ServeExplained | gateway/src/routes/credentials.rs:132-550 | every answer of that table is the one that the history of writes and changes calls for |
| VaultHistory.AgreesStep | gateway/src/routes/credentials.rs:132-550 | each request keeps the table equal to what was last written and not deleted since, and under which secret, with unique ids and names |
| VaultHistory.VaultRunExplained | gateway/src/routes/credentials.rs:132-550 | over every run, with any changes of the audit keys, each read returns the last value written for its id or (tenant, name) exactly if it was written under the secret now in use and 500 otherwise; creates, deletes, rotations and the 409 do not depend on the secret; an agent receives only a value stored for its token's tenant |
| VaultHistory.WrittenIsReadIff | gateway/src/routes/credentials.rs:249-320 | a read by id after a create or rotation of it, with no later write or delete, returns that value if and only if the secret in use at both is the same, and 500 otherwise; so a rotation after a change makes the credential readable again |
| VaultHistory.WrittenIsReadByAgentIff | gateway/src/routes/credentials.rs:427-550 | the same for an agent's read by tenant and name |
| VaultRotation.WriteIsRotate | gateway/src/routes/credentials.rs:371-409 | in every interleaving the update of a rotation leaves the table that an uninterrupted rotation leaves at that moment, and answers with the name that the lookup found, where the uninterrupted one answers 404 exactly if the id was deleted in between |
| VaultRotation.RotatedIsStoredIff | gateway/src/routes/credentials.rs:371-409 | in every interleaving a rotation whose lookup found the row answers success, and its value is stored, readable for the row's tenant, if and only if no delete of the id falls between its lookup and its update |
| VaultRotation.DeleteLosesRotation | gateway/src/routes/credentials.rs:371-409 | a delete between the two steps leaves no credential while the rotation answers success, for every table and live id |
| VaultRotation.InterleavedIsAtomic | gateway/src/routes/credentials.rs:132-550 | in every interleaving the table is the one that the uninterrupted requests leave, each rotation at its update |
| Placeholder.TwoPassesAreOne | gateway/src/images/builder.rs:34-38 | for placeholders and replacements of this shape, two replacements in sequence equal one simultaneous left-to-right pass |
| Placeholder.SubstitutionIsSimultaneous | gateway/src/images/builder.rs:34-38 | for every value the two replacements, in either order, are one simultaneous substitution of {home} and {path} |
| Placeholder.SubstitutionIsFinal | gateway/src/images/builder.rs:34-38 | the result holds neither placeholder, so substituting again changes nothing |
| Porcelain.ParseStatusV2 | gateway/src/routes/git.rs:1267-1367 | the loop over the lines reaches the status, or the panic, specified line by line |
| PorcelainRoundTrip.EntryIsRead | gateway/src/routes/git.rs:1313-1363 | a printed entry line adds its path to the staged, unstaged or untracked list as its letters say |
| PorcelainRoundTrip.PrintedIsRead | gateway/src/routes/git.rs:1243-1367 | reading a status printed in the form that the comment describes, with a blank for an unchanged side, recovers the branch, the upstream, both counts and all three lists in order |
| PorcelainRoundTrip.BlocksJoin | gateway/src/routes/git.rs:1267-1367 | reading two blocks of lines in a row joins their lists, and of each header the later one wins |
| PorcelainRoundTrip.PairIffBoundaries | gateway/src/routes/git.rs:1337-1339 | the two status bytes can be sliced out exactly when byte positions 2 and 4 are character boundaries |
| PorcelainRoundTrip.ParsePanicsIffCut | gateway/src/routes/git.rs:1330-1339 | the parser panics exactly on outputs with a change line whose status bytes cut through a character |
| PorcelainRoundTrip.WideLetterPanics | gateway/src/routes/git.rs:1330-1339 | an entry line with a character of three bytes or more after its first blank panics the parser |
| GitStatus.GitStatusReads | gateway/src/routes/git.rs:1267-1367 | what is read of git's own output, with its oid line and its dots: both lists name every change entry whose last token before a tab is not empty, by that token, with a dot for a side that did not change |
| GitStatus.GitStatusIsReadIff | gateway/src/routes/git.rs:1243-1263 | of git's own output the branch, upstream, counts and all three lists are recovered if and only if every change entry changed on both sides, its path holds no blank, and a blank in the original of a renaming is followed by that very path |
| GitStatus.UnstagedIsStaged | gateway/src/routes/git.rs:1337-1360 | a file changed in the worktree alone is reported as staged with a dot |

## Left out

- Kubernetes, podman, registry, ntfy and GitHub calls, TLS, HTTP routing, SSE heartbeats and logging: no logic of their own.
- SHA-256, HKDF, AES-GCM, Ed25519, ML-DSA and ECDSA: functions passed in, with the laws used stated as hypotheses of the lemmas that need them.
- JSON: client data and message bodies are results of a parameter or plain strings; the audit payload of a rotation is taken as serde_json prints it with sorted keys.
- The base64 crate: its three engines are modelled as canonical decoders (RFC 4648, section 3.5), which reject non-zero trailing bits.
- Cbor.CborParse: a count beyond isize::MAX bytes panics, with the layout of items left open as a constant; running out of memory below that, recursion depth and timing are left out, and `usize` is taken to have 64 bits.
- CborRoundTrip.RoundTrip: covers values the parser's own value type can carry (negatives within 64 bits, valid UTF-8 text); it says nothing of tags, floats and indefinite lengths, which the parser rejects or maps as `CborEncoding.ParseIffEncodes` says.
- Assertion.Credentials.VerifyAssertion: the call as one step; `AssertionRuns` splits it into its three database steps.
- Assertion.ReplayProtection: needs the database to serve the counter's lookup and update; a failed lookup skips the check and a failed update leaves the counter behind, as in the code.
- AuditTamper.TamperEvidence: speaks of the hashed columns, and of rows with pipes only through their messages, as `AuditTamper.RewritableIffPipes` explains; the sequence number, the signatures and the SEV-SNP hash are not under the hash.
- AuditRotation.FollowingAcceptsIff: the verifier that follows fingerprints is the documented one and is not in the code. Operations run one after another; interleaved ones are in `AuditRuns`, with one call's keys at a time.
- Exec.ScriptRunsIntendedIff: a shell is modelled on the fragment that the builders print; for other texts the reader answers None and nothing is claimed.
- Messages.StreamDelivers: rows are taken to decode; the code drops a row that does not.
- CloneDirectory.CloneEntersItsDirIff: a token with a slash, which would end the authentication data of the URL, is left out; so are git's options for bundles, bare and local repositories, which the script does not use.
- GitStatus.GitStatusIsReadIff: paths are taken as printed; git's quoting of unusual characters, which the code does not undo, is not modelled.
- Messages.Bus.PollMessages: texts are ordered by code point, as SQLite's BINARY collation orders their UTF-8 bytes.
- Timestamps.StoredOrder: years have four digits.
- Vault.Store.CreateCredential: timestamps and the 503 answer are left out, sealing never fails, and when the id and the name both exist the answer is 500.
- Vault.Store.GetCredential: the audit entry and the 503 answer are left out.
- Vault.Store.RotateCredential: the rotation timestamp and the 503 answer are left out.
- Vault.Store.AgentGetCredential: the audit entry and the 503 answer are left out.
- VaultHistory.VaultRunExplained: requests are served one at a time; `VaultRotation.InterleavedIsAtomic` carries the table, though not the 404 of a rotation, over to interleaved rotations.
- VaultRotation.RotatedIsStoredIff: new ids are taken never to repeat, as random UUIDs do not, and the audit keys to stay, as a restart ends the calls under way.
- The list handler of the vault, which returns metadata only.
- Migrations (gateway/src/db/mod.rs), `parse_log_oneline`, `parse_commit_sha`, `parse_owner_repo`, memory and CPU quantities, scope patterns, the workflow engine and the session manager: easy members, floating point, or outside the modelled core.
