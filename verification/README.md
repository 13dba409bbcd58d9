# Proofs about lib-agent-mcp

A Dafny model of the parts of lib-agent-mcp that carry its guarantees, and proofs of those
guarantees. `dafny verify dfyconfig.toml` checks everything.

**The local OAuth 2.1 server** (`oauth/`). Stores are classes over a document map whose
every operation may fail; registries, code table, pairing and the server's handlers are
methods over them, each proved against a function of the old state. `Machine` puts the
handlers' steps, operator commands, restarts, resets and the clock into one state machine
in which requests interleave freely, with a ledger of approvals, draws and signed tokens.
Over whole runs of it are proved: one live credential per approval (`Lineage`), the exact
condition under which removing a principal is final and the time by which its last access
token is dead (`Revocation`), identity from the stored pairing code to the tool call
(`Provenance`), what restarts keep (`Restarts`), what a reset forgets and what outlives it
(`Resets`), single use and binding of codes (`Redemption`), and that the pairing codes in
store never collide (`StoredCodes`). `StoreFailures` quantifies over every pattern of store errors, and
`HandlerSteps` shows that a handler run undisturbed is its steps in the machine. `Answers`
gives every endpoint's replies with their exact conditions, in terms of the stored maps.

**The map store under interleaving** (`Interleavings`): lock, load, modify, save and unlock
as separate steps of any number of threads, proved linearizable for a shared mutex, with a
schedule that breaks it for two. `Overlaps` says, over every schedule, exactly when an issue
and a removal under a mutex each, as the code has them, leave a removed token, and when they
leave what one after the other does; the latter is what the state machine's atomic steps,
and so `Revocation.BoundedRevocation`, assume.

**Pairing codes** (`PairingCodes`, `Sextets`, `Normalizer`, `Pairings`): generation and
base64url down to single bits, the normalizer, and the matcher that decides whose a typed code is.

**Output and files** (`Paths`, `FileTool`, `FileRefs`, `Translation`, `Outputs`): the rewrite
of host paths in tool output to references, the resolver that takes a reference back, and the
translation of a subprocess result, line by line.

**The tool surface** (`CommandTrees`, `Surfaces`, `Dispatch`, `ToolNames`, `Arguments`):
which commands become tools, what help lists, what a call runs and with which arguments,
and that these walks agree.

How the outside is represented: random values are arguments of the steps that draw them, and
runs are over fresh draws; the clock is an argument; a signature is the key a token
verifies under; SHA-256, JSON encoding and URL parsing are functions passed in, JSON with the
assumption that decoding undoes encoding; a store's errors are a schedule of which of its next
operations fail, and a failed write changes nothing.

Where code and documentation disagree the model follows the code. The annotation comment
(annotations.go:12-14) says a destructive mark triggers --yes injection; the code injects
only into a command that defines the flag (jsonrpc.go:144-147). The design document says the
text block is rebuilt with paths scrubbed (design-docs/file-access.md:230-241); the code keeps
text and metadata lines as printed and looks at whole strings only;
`Translation.RootPathRemains` says exactly when a root path is left, `SavedRemains` and
`NoteRemains` give inputs. It also promises that after a reset every client must re-pair
(design-docs/oauth.md:119-124); the running server can still turn a pending code into a
refresh token that survives the restart (`Resets.OutstandingOutlives`), and
`Resets.ResetExact` says exactly when it cannot.
AddPrincipal accepts an empty name, which with an empty binding is the operator's identity
(`Pairings.OperatorExactly`), and RemovePrincipal then leaves its refresh tokens
(`StoreFailures.RemoveNamedEffect`).

## Model

| member | source | states |
|---|---|---|
| `SecretStores.SecretStore.Set` | oauth/store.go:110-115 | Stores the value, or on an error changes nothing: the new contents and the outcome are those of one step of the reference disk. |
| `SecretStores.SecretStore.DeleteAll` | oauth/store.go:126-131 | Empties the store, or on an error changes nothing. |
| `MapStores.JsonMapStore.Fetch` | oauth/mapstore.go:19-27 | Reads one entry of the document; contents and outcome are those of `Lookup`, which `MapStores.LookupExactly` spells out. |
| `MapStores.JsonMapStore.Update` | oauth/mapstore.go:33-44 | Loads, applies the closure, and saves only if it reports a change; contents and outcome are those of `Mutate`, which `MapStores.MutateExactly` spells out. |
| `MapStores.LoadExactly` | oauth/mapstore.go:47-61 | Loading fails exactly with the store or on a non-empty document that does not decode; an absent or empty document is the empty map. |
| `MapStores.LookupExactly` | oauth/mapstore.go:19-27 | A lookup finds the entry exactly if the map has it, and fails exactly if loading does. |
| `MapStores.MutateExactly` | oauth/mapstore.go:33-69 | A mutation takes a read and, only if the closure reports a change, a write; it fails exactly if one of them does or the document does not decode; and only on success with a change is the document replaced. |
| `MapStores.MutateEffect` | oauth/mapstore.go:33-69 | A mutation is all or nothing: on success the decoded document is what the closure made of it and the result is the closure's, on an error no document changed, and no other document is ever touched. |
| `Interleavings.StepInv` | oauth/mapstore.go:33-44 | Every lock, load, modify, save or unlock step of any thread, store errors included, keeps the linearization invariant. |
| `Interleavings.Linearizable` | oauth/mapstore.go:19-44 | In every interleaving of threads that share one mutex the document is what the committed mutations give one after another in commit order, each call returned its atomic result there, and a failed call had no effect. |
| `Interleavings.AloneIsMutate` | oauth/mapstore.go:33-69 | A thread that finds its mutex free and runs alone does exactly what the map store's mutation does, whichever of its two store operations fail, and leaves the mutex free. |
| `Interleavings.RealTimeOrder` | oauth/mapstore.go:19-44 | A call that returned before another one took the lock comes before it in commit order. |
| `Interleavings.NoInsertLost` | oauth/mapstore.go:33-44 | An insert that returned is in the document as long as the other threads' mutations keep that entry. |
| `Interleavings.OneExchangeWins` | oauth/refresh.go:61-74 | Of any number of concurrent exchanges of one refresh token at most one gets the grant, in every interleaving. |
| `Interleavings.TwoMutexesLoseRevocation` | oauth/principal.go:90 | The shared mutex is needed: with a mutex each, as RemovePrincipal has, an issue overlapping a removal puts the removed token back although both calls succeed, which no sequential order does. |
| `Overlaps.LastSaveWins` | oauth/mapstore.go:33-44 | Two mutations under a mutex each, over every schedule in which both succeed: a thread that loaded before the other's save and saves after it has the last word with what it made of the old map; otherwise the result is that of the two in commit order. |
| `Overlaps.RemovalSurvivesExactly` | oauth/principal.go:90 | With RemovePrincipal's own mutex, over every schedule in which an issue to somebody else and the removal succeed: a token of the removed principal is left exactly when the issue loaded before the removal saved and saved after it; and the document holds what the two atomic steps of the state machine leave in commit order exactly when neither loaded before and saved after the other's save. |
| `RefreshTokens.RefreshStore.Issue` | oauth/refresh.go:27-41 | Persists the grant under the drawn token. |
| `RefreshTokens.RefreshStore.Exchange` | oauth/refresh.go:61-74 | Takes the token out and returns its grant, in one mutation. |
| `RefreshTokens.RefreshStore.RemoveForPrincipal` | oauth/refresh.go:43-57 | Drops every token of a non-empty name in one mutation, and nothing for the empty name. |
| `AuthCodes.AuthCodeStore.Issue` | oauth/authcode.go:36-46 | Keeps the grant under the drawn code, to expire one lifetime from now. |
| `AuthCodes.AuthCodeStore.Consume` | oauth/authcode.go:50-59 | Takes the code out whatever its age, and returns the grant unless the clock is past its expiry. |
| `Clients.ClientRegistry.Register` | oauth/clients.go:37-48 | Persists the client with its URIs and name under the drawn id. |
| `Clients.ScanRedirects` | oauth/clients.go:17-24 | The scan answers whether the URI is among the registered ones. |
| `Base64Url.DecodeEncode` | oauth/token.go:128-141 | Unpadded URL-safe base64 (section 5 of RFC 4648) decodes to what was encoded. |
| `Base64Url.EncodeInjective` | oauth/pkce.go:16-23 | Different byte strings have different encodings. |
| `Sextets.EncodeIsSixBits` | oauth/pkce.go:16-23 | Symbol j of an encoding is the alphabet's symbol for bits 6j to 6j+5, zero-filled, and there are as many symbols as the bits need (sections 4 and 5 of RFC 4648). |
| `AccessTokens.LoadOrCreateSigningKey` | oauth/token.go:122-145 | Loads the stored key, refusing a short or undecodable one, or stores the one drawn. |
| `AccessTokens.KeyExactly` | oauth/token.go:122-145 | With a key stored, loading returns exactly what decodes to 32 bytes or more and stores nothing; without, it stores and returns the key drawn; any other case is an error. |
| `AccessTokens.KeyPersists` | oauth/token.go:122-145 | A key once created is the key every later load returns, unless the store fails. |
| `AccessTokens.MintedValidates` | oauth/token.go:74-118 | A token is valid for its own issuer exactly until the whole second its lifetime ends in, and carries the client, scope and principal it was minted for. |
| `AccessTokens.MintedClaims` | oauth/token.go:74-90 | A minted token names issuer, audience, client, scope and principal, and the whole seconds it is signed and dies in. |
| `Pkce.PkceBinds` | oauth/pkce.go:16-23 | A verifier accepted for another verifier's challenge has the same SHA-256 hash. |
| `PairingCodes.GeneratePairingCode` | oauth/pairing.go:68-79 | The generated code is prefix and five hyphen-joined groups of the first 25 base32 digits of the draw. |
| `PairingCodes.DigitIsFiveBits` | oauth/pairing.go:73 | Base32 digit j of any byte string is its bits 5j to 5j+4, zero-filled (section 6 of RFC 4648). |
| `PairingCodes.CrockfordExactly` | oauth/pairing.go:20 | The alphabet is the digits and the capital letters but I, L, O and U, in order. |
| `PairingCodes.CodeCharacters` | oauth/pairing.go:68-79 | A code, character by character: mcp, and five groups of five after a hyphen each, showing the draw's first 125 bits five to a character. |
| `PairingCodes.CodeInjectivity` | oauth/pairing.go:68-79 | Two 16-byte draws give the same code exactly when they agree on their first 125 bits. |
| `Normalizer.PrefixedSpelling` | oauth/pairing.go:88-98 | Every re-spelling of a prefixed code (case, hyphens and spaces anywhere, O, I and L for 0 and 1) normalizes to the 25-character body. |
| `Normalizer.UnprefixedSpelling` | oauth/pairing.go:88-98 | Without the prefix it does so exactly when the body does not itself start with MCP. |
| `Normalizer.NormalizeExactly` | oauth/pairing.go:92-98 | The inputs that normalize to a given body, completely: its spellings with the prefix, and those without unless it starts with MCP. |
| `Normalizer.CodeNormalizes` | oauth/pairing.go:83-98 | A stored code normalizes to its body whatever the body. |
| `Normalizer.McpBodyExists` | oauth/pairing.go:95 | Draws whose body starts with MCP exist, and their codes are not accepted without the prefix. |
| `Pairings.CompareAll` | oauth/principal.go:121-136 | The loop without a break returns what stopping at the first match returns. |
| `Pairings.Pairing.ListCandidates` | oauth/principal.go:142-158 | The shared code first, then the named principals in name order. |
| `Pairings.Pairing.VerifyPrincipal` | oauth/principal.go:112-137 | Identifies the input by the first candidate it matches, leaving the store as reading the candidates leaves it. |
| `Pairings.IdentifyExactly` | oauth/principal.go:112-158 | Over a working store: the input is the operator's if it matches the shared code, else the matching principal's first by name, with that record's binding, else nobody's; a missing shared code is created, and a draw it lacks is the only failure. |
| `Pairings.Pairing.Code` | oauth/pairing.go:44-53 | Returns the stored shared code, generating and storing one on first use. |
| `Pairings.SharedCodeExactly` | oauth/pairing.go:44-64 | The shared code is the one stored; only without one is the one drawn stored and returned; it fails exactly if the store or the draw it needs does. |
| `Pairings.RotateExactly` | oauth/pairing.go:57-64 | Rotating stores the code drawn over any other before returning it. |
| `StoredCodes.SharedCodeStays` | oauth/pairing.go:42-53 | Across requests, other commands and restarts, with any store errors, the shared code stays until it is rotated or the store reset. |
| `StoredCodes.RotationInvalidates` | oauth/pairing.go:55-64 | In every reachable state, whatever was accepted as the shared code is accepted as nobody's once it is rotated. |
| `Pairings.Pairing.AddPrincipal` | oauth/principal.go:60-72 | Generates a code and files exactly it and the binding given under the name, in one mutation that leaves every other record; a failure files nothing (`Pairings.AddExactly`). |
| `Pairings.AddExactly` | oauth/principal.go:60-72 | On success the named record is exactly the code handed out and the binding given, and every other record and document is as before; a failure stores nothing; it fails exactly if the draw, the store or decoding does. |
| `Provenance.RecordAdded` | oauth/principal.go:60-72 | Over any run every stored record's code and binding are those of one AddPrincipal of that name, and it has been stored ever since. |
| `Pairings.Pairing.RemovePrincipal` | oauth/principal.go:78-94 | Drops the record, and only if that succeeded the refresh tokens, through a second refresh store. |
| `Pairings.FirstMatchSound` | oauth/principal.go:112-137 | What is returned is the grant of the first candidate the input matches, and nothing only if it matches none. |
| `Pairings.OperatorExactly` | oauth/principal.go:37-44 | A caller counts as the operator exactly when the shared code was entered, or the code of a principal stored with neither a name nor a binding. |
| `Pairings.MatchesIsEnters` | oauth/pairing.go:83-98 | An input matches a stored generated code exactly when it is a spelling of it. |
| `Pairings.MatcherExact` | oauth/principal.go:112-158 | With generated codes of distinct bodies the loop returns, for every input, the grant of the one code it spells, and nothing when it spells none. |
| `Pairings.StoredCodesIdentify` | oauth/principal.go:112-158 | The same from the store's side: spellings of the shared code identify the operator, spellings of a record's code that record's principal, nothing else anyone. |
| `StoredCodes.ReachableWellFormed` | oauth/principal.go:142-158 | In every reachable state with a shared code all stored codes are generated ones with different bodies. |
| `StoredCodes.ReachableCodesIdentify` | oauth/principal.go:112-158 | So there, whatever is typed matches at most one stored code and identifies its holder. |
| `Pairings.AppendNamed` | oauth/principal.go:151-156 | The loop appends one candidate per name, in the order of the names. |
| `Pairings.BlankRejected` | oauth/principal.go:113-116 | Blank input spells no generated code. |
| `Handlers.SettlesTo` | oauth/server.go:63-100 | A configuration is accepted exactly when it has a public URL; settled, its URLs have lost their trailing slashes and nothing else, and what was left out has its default. |
| `Handlers.New` | oauth/server.go:63-100 | Builds the server over the store with the settled configuration, the stored or newly stored key, and no pending code; or fails with the store as loading left it (`Answers.BootAnswer`). |
| `Handlers.OAuthServer.SubmitAuthorize` | oauth/authorize.go:80-109 | Reply, store and pending codes are those of `AuthorizeSubmit` (`Answers.SubmitAnswer`). |
| `Handlers.OAuthServer.ExchangeCode` | oauth/grant.go:27-42 | Reply, store and pending codes are those of `GrantAuthCode` (`Answers.CodeAnswer`). |
| `Handlers.OAuthServer.ExchangeRefresh` | oauth/grant.go:45-60 | Reply and store are those of `GrantRefresh`; pending codes stay (`Answers.RefreshAnswer`). |
| `Handlers.OAuthServer.MintAndIssue` | oauth/grant.go:64-82 | Mints, then persists a refresh token; a failure at either answers 500. |
| `Handlers.OAuthServer.RegisterOne` | oauth/register.go:16-55 | The loop over the URIs, and then the registry, answer and leave what `HandleRegister` does (`Answers.RegisterAnswer`). |
| `Answers.BootAnswer` | oauth/server.go:63-100 | A server comes up exactly with a public URL and a usable or newly stored key; its tokens then name the public URL as issuer and the resource as audience, both without trailing slashes, and live for the configured time or an hour. |
| `Answers.GateAnswer` | oauth/server.go:129-143 | A token is let in exactly by an issuer of the same key, name and audience before its last whole second, and the request acts for whom it was minted; without a token nobody is let in. |
| `Answers.RegisterAnswer` | oauth/register.go:16-73 | A registration is refused exactly for no URI or one that is not an absolute URL with a host over https, or over http to localhost, 127.0.0.1 or ::1; otherwise exactly the client asked for is filed. |
| `Answers.SubmitAnswer` | oauth/authorize.go:56-176 | Every reply to an approval with its exact condition: error page, error redirect, form again, redirect with a code; the code is for a minute, for the holder of the pairing code and for what was asked; nothing else changes but a shared code first needed. |
| `Answers.CodeAnswer` | oauth/grant.go:27-82 | Tokens exactly for a pending code presented in time by its client, for its redirect URI and with the verifier whose encoded SHA-256 is the challenge; 400 exactly otherwise, 500 exactly if signing or drawing fails; the code is gone in any case. |
| `Answers.RefreshAnswer` | oauth/grant.go:45-82 | Tokens exactly for a live refresh token presented with no client id or its client's; 400 exactly otherwise, 500 exactly if signing or drawing fails; the token presented is gone in any case. |
| `Answers.RemoveAnswer` | oauth/principal.go:78-94 | A removal makes its store operations in order and stops at the first that fails: it fails exactly if one of them does or a document does not decode, and what was done before is what is left. |
| `HandlerSteps.SubmitSteps` | oauth/authorize.go:80-109 | Undisturbed, the machine's two steps of an approval leave exactly what the handler leaves. |
| `HandlerSteps.CodeExchangeSteps` | oauth/grant.go:27-82 | Undisturbed, the machine's three steps of a code exchange leave exactly what the handler leaves. |
| `HandlerSteps.RefreshSteps` | oauth/grant.go:45-82 | Likewise for a refresh exchange, store errors included. |
| `HandlerSteps.RemoveSteps` | oauth/principal.go:78-94 | Likewise for a removal, which stops after its first step if that fails. |
| `HandlerSteps.CommandSteps` | oauth/principal.go:60-72 | Registrations, operator commands and restarts are single steps that leave exactly what the operation leaves. |
| `Lineage.StepKeeps` | oauth/grant.go:27-82 | Every step of every request, operator command, reset, restart or tick, with any store errors, keeps lineage and identity of all credentials. |
| `Lineage.LineageConservation` | oauth/refresh.go:27-74 | In every reachable state each approval has at most one live credential among its pending code, its refresh tokens and the requests under way for it, and every code and refresh token descends from an approval. |
| `Lineage.ExchangeEffect` | oauth/refresh.go:61-74 | Exchanging finds the token exactly if it is live, takes exactly it away and returns its grant; otherwise no document changes. |
| `Lineage.DropEffect` | oauth/refresh.go:43-57 | Dropping a principal's tokens keeps every other token as it is, on success leaves none of that non-empty name, and writes nothing if there was none. |
| `Revocation.BoundedRevocation` | oauth/principal.go:74-94 | After a successful RemovePrincipal(n), n non-empty, with no redeemable code of n's pending and no request of n's under way, every run that does not add n again never holds a record or refresh token of n's, and no issuer accepts any access token of n's once the longest configured lifetime has passed since (expiry as in section 4.1.4 of RFC 7519). |
| `Revocation.InterruptedRevocation` | oauth/principal.go:78-94 | The same when any other steps run between the removal's two mutations, with the pending codes and requests judged after both. |
| `Revocation.RevocationExact` | oauth/principal.go:74-94 | Removal is final exactly when n has no redeemable code pending and no request under way: otherwise a run without another AddPrincipal hands n a refresh token. |
| `Revocation.ThreatIsReal` | oauth/grant.go:27-42 | Builds that run from a pending code or a request at any stage. |
| `Revocation.RemovalCompletes` | oauth/principal.go:78-94 | Once both mutations of a removal succeeded, whatever ran in between short of adding n again, n has neither record nor refresh token. |
| `Provenance.SubmissionSound` | oauth/authorize.go:80-141 | A submission that passes the gates names a registered client and one of its URIs, an S256 challenge, and the identity of the stored code entered. |
| `Provenance.TokensHaveApprovals` | oauth/grant.go:41-82 | Every signed access token and live refresh token carries exactly one approval's client, scope and principal, and that approval rests on client and pairing code stored at an earlier point of the run. |
| `Provenance.ProvenanceToExecution` | oauth/server.go:129-143 | For a run in which no principal was added without a name, the call a token admits acts for its approval's principal: the operator exactly when the shared code was entered, otherwise the principal whose stored code it was, with the binding one AddPrincipal of the run gave it together with that code. |
| `Callers.CallActsFor` | runner.go:55-76 | The operator gets no injection and the configured roots; a named principal exactly what the binding and, root by root, the scope make of it, and no root without a scope. |
| `Callers.CollectFileRoots` | fs.go:104-119 | The loop collects the roots in configured order as the scope rewrites them. |
| `Callers.ScopedExactly` | fs.go:104-119 | A principal sees a root exactly when the scope made it of a configured one. |
| `Callers.ScopedInOrder` | fs.go:113-118 | A principal sees, in configured order, exactly what the scope makes of the roots it does not refuse. |
| `Restarts.TokensSurviveRestarts` | oauth/token.go:97-145 | Across any number of restarts without a reset a token signed before is accepted exactly while its own process would have accepted it, by every process addressed the same. |
| `Restarts.RestartComesUp` | oauth/server.go:63-100 | With the store working and a public URL configured a restart succeeds with the old key. |
| `Restarts.RestartLosesCodes` | oauth/server.go:90-99 | A restart loses exactly the pending codes and the requests under way; clients, principals, refresh tokens and the shared code stay. |
| `Resets.ResetForgets` | oauth/store.go:126-131 | After a reset and, whatever the running server and the operator do in between, a restart, no later state of any run accepts an access token signed with a key of before, holds a refresh token, code or client id of before, or matches a pairing code of before; until the restart the running process keeps its key and pending codes. |
| `Resets.ResetExact` | design-docs/oauth.md:119-124 | After a reset and a restart no live refresh token descends from an approval of before, in every run, exactly when at the reset no redeemable unexpired code was pending and no request under way. |
| `Resets.OutstandingOutlives` | pair.go:58-84 | The failing run: such a code or request is carried through to a refresh token before the restart, no principal being added, and every restart leaves that token live with the old approval's client, scope and principal. |
| `Prospects.BecomesRefreshToken` | oauth/grant.go:27-82 | Every redeemable unexpired code and every request under way becomes a refresh token of its approval's in some run that adds no principal. |
| `Prospects.LivelyFrom` | oauth/grant.go:27-82 | Nothing comes to life by itself: whatever a step leaves that can still end in tokens, something of the same approval could before. |
| `Redemption.SingleUse` | oauth/authcode.go:48-59 | Over any run a code passes consume at most once, whatever became of the exchange, and a refresh token is exchanged at most once. |
| `Redemption.ExchangeBinding` | oauth/grant.go:27-42 | An exchange goes through exactly when the code is unexpired and client id, redirect URI and S256 verifier are those of the approval it descends from; it then carries that approval's identity, and the code goes in any case (section 4.1.3 of RFC 6749, section 4.6 of RFC 7636). |
| `Redemption.RefreshSettles` | oauth/grant.go:45-60 | In every reachable state a refresh goes through exactly when the token is live and the client id, if given, is that of the approval it descends from; it then carries that approval's identity, and the token goes in any case. |
| `StoreFailures.CodeExchangeFailsSafe` | oauth/grant.go:27-82 | Under every pattern of store errors an error reply leaves no new code or refresh token, and a success exactly one. |
| `StoreFailures.RefreshFailsSafe` | oauth/grant.go:45-82 | Likewise for a refresh, whose success trades the presented token, given with its client's id or none, for exactly one new one; and a 400 says the token was not live or not its client's, and leaves it dead. |
| `StoreFailures.IssueTokensEffect` | oauth/grant.go:64-82 | A granted reply carries the minted token, the stored refresh token, the scope and the lifetime in whole seconds; a 500 changed nothing. |
| `StoreFailures.SubmitFailsSafe` | oauth/authorize.go:80-109 | A reply without a code leaves no new credential; a reply with one leaves exactly that code, expiring in a minute, for what the client asked and whom the entered code identifies. |
| `StoreFailures.RedirectsOnlyRegistered` | oauth/authorize.go:56-68 | A browser is only sent back to a URI registered for the client it names, with the client's state and either a code or an error. |
| `StoreFailures.RedirectsAreSecure` | oauth/register.go:56-73 | In every reachable state all redirect URIs of all clients are https, or http to this machine, and every redirect of an approval goes to such a one. |
| `StoreFailures.RegisterFailsSafe` | oauth/register.go:16-73 | Under every pattern of store errors registration refuses exactly the requests without URIs or with one that is not https or http to this machine; an error files nothing, a success exactly the client asked for. |
| `StoreFailures.RemoveNamedEffect` | oauth/principal.go:78-94 | A removal that succeeds is complete for a non-empty name whatever an earlier one left; one that fails removed nothing, or the record and nothing else. |
| `StoreFailures.RetryCompletes` | oauth/principal.go:78-94 | A retry after a half-done removal, once the store works, finishes it and touches no other principal. |
| `Paths.FileRefFor` | design-docs/file-access.md:230-231 | A string gets a reference exactly when it is at or under some root. |
| `Paths.DeepestContains` | design-docs/file-access.md:230-241 | The root chosen contains the path, and no containing root is deeper. |
| `Paths.DeepestIsFirst` | design-docs/file-access.md:230-241 | Of equally deep roots the first listed is chosen. |
| `Paths.SafeResolveContains` | design-docs/file-access.md:104-109 | For every relative path: refused exactly when absolute or when its walk leaves the root at some point, and otherwise resolved to a clean path at or under the root. |
| `Paths.CleanTracksDepth` | design-docs/file-access.md:104-109 | Lexical cleaning leaves a parent segment exactly when the walk climbs above its start. |
| `Paths.CleanLaws` | design-docs/file-access.md:104-109 | Anywhere in a path empty and single-dot segments mean nothing and a segment cancels with a parent segment after it; a path of proper segments is clean already. |
| `FileTool.LookUpRoot` | fs.go:285-292 | Returns what looking the name up gives; that this is the first root of the name is `FileTool.RootByNameExactly`. |
| `FileTool.RootByNameExactly` | fs.go:285-292 | The first root of that name, and nothing only if there is none. |
| `FileTool.SelectExactly` | fs.go:61-97 | Every call of the file tool: usage for anything but its three verbs, an error without roots, root name or known root, and otherwise the verb on the first root of that name the caller sees, with the arguments after it. |
| `FileTool.GetStaysInside` | fs.go:61-97 | Whatever arguments a caller passes to get, the path reached lies in the caller's own root of that name. |
| `FileTool.ReferenceRoundTrip` | fs.go:206-214 | For every caller, scope and clean path under one of its roots, get with the path's reference reaches the path exactly when the relative path is not blank and the root's name leads to the same root path; with distinct names it does. |
| `FileRefs.RewriteFileRefs` | fileref_rewrite.go:15-38 | The recursive member-by-member and item-by-item replacement, in any member order, gives `Rewrite`. |
| `FileRefs.RewriteKeepsShape` | fileref_rewrite.go:15-38 | Same objects with the same keys, same arrays, every value itself or a string become a reference. |
| `FileRefs.RewriteLeavesNoRooted` | fileref_rewrite.go:9-38 | No string value at or under any root is left at any depth. |
| `FileRefs.RewriteIdempotent` | fileref_rewrite.go:15-38 | Rewriting twice is rewriting once. |
| `FileRefs.RewriteUndone` | fileref_rewrite.go:15-38 | Resolving every reference in the root it names gives the tree back, for clean paths and distinct root names. |
| `FileRefs.OutputFetches` | jsonrpc.go:147 | Every reference anywhere in a caller's tool output fetches, for that caller, the path it was made of. |
| `Translation.ProcessStdout` | translate.go:52-91 | The loop returns the records, metadata and rebuilt text of `Processing`, which `Outputs.OutputExactly` spells out line by line. |
| `Outputs.OutputExactly` | translate.go:52-103 | The records are exactly the lines that decode to anything but an object with one key starting with @, rewritten, in the order printed; each metadata key is what its last line says; the rebuilt text is line by line the records' encodings and every other line as printed, blank ones left out. |
| `Outputs.ReferenceReads` | design-docs/file-access.md:230-241 | A reference reads as a file object with the root's name, the path, and the path's last segment as name. |
| `Outputs.FailureShows` | translate.go:124-133 | A failure shows the error's text, with its hint on a line of its own, or without an error line all of stderr. |
| `Translation.LineFixpoint` | translate.go:55-86 | A line of the rebuilt text is read as what it was written for, and rebuilt once more does not change. |
| `Translation.ScrubFixpoint` | translate.go:52-91 | Processing the rebuilt text gives the same records as they read once encoded, in order, the same metadata and the same lines, and the text it rebuilds is final. |
| `Translation.ScrubFixpointExact` | translate.go:52-91 | For roots at distinct clean paths every output with clean paths is such a fixpoint exactly when no root is named by a path at or under a root. |
| `Translation.ScrubbedShows` | translate.go:61-86 | The rebuilt text shows text and metadata lines exactly as printed, host paths included, and otherwise only records without a string at or under a root. |
| `Translation.ScrubbedKeeps` | translate.go:57-76 | No text or metadata line is dropped. |
| `Translation.RootPathRemains` | translate.go:61-88 | For root paths without a line break the rebuilt text shows a root path exactly when some text or metadata line printed has one, or some record's encoding. |
| `Translation.VerbatimRemains` | translate.go:61-76 | Whatever the roots, a root path in a text or metadata line printed is in the rebuilt text. |
| `Translation.SavedRemains` | translate.go:20-26 | Concretely: printing one line of plain text with a path under a root makes the text be rebuilt, as that same line. |
| `Translation.NoteRemains` | fileref_rewrite.go:20-24 | Concretely: a record whose string holds a root path further in stays as it is, and the rebuilt text is its encoding. |
| `Translation.StdoutHasRootPath` | fileref_rewrite.go:43-50 | Answers whether some non-empty root path occurs in stdout. |
| `Translation.ParseError` | translate.go:107-122 | The last stderr line that is an object with an error field, if any. |
| `Translation.Translate` | translate.go:19-45 | A success shows stdout verbatim unless a root path occurs in it, and then the rebuilt text; a failure is flagged and shows the last error line, or all of stderr. |
| `CommandTrees.SearchCommand` | commandtree.go:36-43 | Stopping at the first hit answers whether any visible descendant satisfies the predicate. |
| `CommandTrees.AnyCommandFinds` | commandtree.go:36-43 | A positive answer comes with a descendant at a place with no excluded command on the way. |
| `CommandTrees.AnyCommandFound` | commandtree.go:36-43 | Every such descendant makes the answer positive. |
| `CommandTrees.KeepVisible` | commandtree.go:23-32 | Keeps exactly the non-excluded children, in order. |
| `CommandTrees.FieldsDecide` | commandtree.go:15-66 | Which fields leave a command out, expose it or make it destructive. |
| `Surfaces.Build` | schema.go:47-94 | The recursive walks, appending to one list, give `BuildTools`. |
| `Surfaces.LegacyMembers` | schema.go:57-70 | Legacy tools are exactly the runnable commands with no excluded command on their path. |
| `Surfaces.ExposedMembers` | schema.go:76-94 | Exposed tools are exactly the first exposed visible commands on their paths that are runnable or have a runnable visible descendant, as groups exactly when they have one. |
| `Surfaces.SurfaceExactly` | schema.go:47-94 | Both modes at once: those commands, each once, depth first with siblings in order, and in exposed mode none below another. |
| `Dispatch.Render` | grouphelp.go:34-52 | The render walk lists `Help`. |
| `Dispatch.HelpMembers` | grouphelp.go:34-52 | Help lists exactly the visible commands all of whose ancestors in the group have a runnable visible descendant. |
| `Dispatch.HelpInOrder` | grouphelp.go:34-52 | Help lists depth first, siblings in order. |
| `Dispatch.RunnableOpens` | grouphelp.go:47-49 | The pruning hides no runnable visible command. |
| `Dispatch.GroupCallAgrees` | jsonrpc.go:129-148 | A group call that runs something runs a runnable, non-excluded strict descendant named by the arguments; with no excluded command between, help lists it and an injected --yes means the tool carries the destructive hint. |
| `Dispatch.ToolCallAgrees` | schema.go:47-94 | For every tool of the surface in both modes, whatever a call runs is a runnable, non-excluded command at or below the tool; with no excluded command between, an injected --yes means the tool carries the destructive hint and a group's help lists the command; a leaf runs itself and nothing else. |
| `Dispatch.HintCoversConfirm` | schema.go:169-171 | A group's hint announces every --yes its calls can inject exactly when it is set or no runnable, non-excluded command with a --yes flag can be reached by its path. |
| `Dispatch.HintExactly` | commandtree.go:64-112 | A leaf carries the hint exactly if it has --yes or is marked destructive, a group exactly if some visible command below it does. |
| `Dispatch.UnhintedIsHidden` | commandtree.go:94-97 | What the hint misses lies behind an excluded command. |
| `Dispatch.HiddenConfirm` | jsonrpc.go:140-147 | Such a command exists: behind a hidden subgroup, run with --yes, without a hint and without a line of help. |
| `Dispatch.FindByNames` | jsonrpc.go:138 | Descending by the names of a place leads to it, and on from there, if each command on the way is the first of its siblings with its name. |
| `Dispatch.FindMisses` | jsonrpc.go:138 | And never to it otherwise. |
| `Dispatch.FindIsTarget` | jsonrpc.go:138 | Descending goes exactly as far as the arguments name first children. |
| `Dispatch.CallExactly` | jsonrpc.go:129-147 | What every call does: a leaf runs; a group runs the command the arguments lead to, or shows help if they are none, start with help, lead nowhere, or to a command that is left out or cannot run; --yes goes exactly to commands that define it. |
| `Dispatch.ListedRuns` | grouphelp.go:34-52 | Every runnable command help lists runs when called by its path, each name on it being the first of its siblings. |
| `Dispatch.ChildResolvesSame` | runner.go:92-93 | From the root, the tool's path and the arguments lead the child process to the command the call resolved; for a leaf exactly when the arguments name none of its subcommands. |
| `ToolNames.PathPartsAreNames` | commandtree.go:76-82 | Splitting the joined command path and dropping the root gives the names on the way, for names that are single words. |
| `ToolNames.JoinInjectiveExactly` | schema.go:126-132 | Joining names free of a non-empty separator is injective exactly when no proper beginning of the separator is also its end. |
| `ToolNames.BorderedCollides` | options.go:66-70 | For any other separator two different paths get the same tool name. |
| `ToolNames.BuildIndex` | server.go:55-58 | The loop gives `Index`. |
| `ToolNames.IndexLast` | server.go:55-58 | Each name leads to the last tool of that name, and no other name to any. |
| `ToolNames.IndexServesAll` | server.go:53-58 | Every command tool is found under its own name, for such a separator, sibling names that differ and native tools named otherwise. |
| `Arguments.BuildArgv` | runner.go:92-102 | Appends path, sorted options, positionals, confirmation and format to one vector, that of `Argv` (`Arguments.ValuesReachChild`, `Arguments.ArgvFrame`). |
| `Arguments.ArgvRoundTrip` | runner.go:92-119 | Decoding the argument vector gives back every rendered binding in list order, the positionals and the confirmation, whatever the map's order, exactly when no key with a value holds an equals sign, the first positional does not read as an option, and the last is not --yes unless the call is confirmed. |
| `Arguments.OptionsReachChild` | runner.go:104-119 | Under each name the child is given exactly the values the call's options hold, in order, for all names, exactly when no key with a value holds an equals sign and the first positional does not read as an option. |
| `Arguments.ValuesReachChild` | runner.go:92-119 | With plain keys and positionals the child's flag parser reads back the JSON value given under every name: truth values, scalars, list items in order, and nothing for null, an empty list or a name not given. |
| `Arguments.ArgvFrame` | runner.go:92-102 | The vector starts with the tool's path and ends with the positionals, --yes if confirmed, and --format jsonl. |
| `Arguments.ArgvAmbiguous` | runner.go:92-102 | Behind each of those conditions are two different calls with the same vector: an unconfirmed last --yes and a confirmation, two option maps that cut a key and its value differently, and a leading positional and an option. |

## Left out

- HTTP serving, CORS, request parsing, the HTML form, metadata documents, access log, Tailscale, banners, usage text: input and output plumbing.
- Subprocess start and exit, the OS keyring, real file-system walking (`find`, `ls` listings), MIME sniffing, content blocks, the inline size limit: foreign calls.
- JWT encoding and HMAC: a token is its claims and the key it verifies under, and tokens presented to `Protect` in the run theorems are ones the server signed. Empty issuer or audience (a public URL of slashes only) is not modelled.
- Constant-time comparison: modelled as equality; timing is not.
- A stored map document that is the JSON literal null: decoding yields a nil map, on which an insert panics; the codecs decode to maps only.
- Mutexes inside the state machine: its refresh mutations are atomic steps; `Interleavings.Linearizable` justifies that for one mutex, and `Overlaps.RemovalSurvivesExactly` says when it holds for the removal's own.
- The two reads of an approval (shared code, then named principals) are one step of the machine.
- A redirect URI's own query parameters: a redirect is the URI and the parameters added.
- Non-ASCII case folding, and whitespace other than spaces inside a pairing code.
- In-place update of JSON trees: values are rewritten rather than maps and slices aliased; decoded trees share nothing.
- The text of a JSON number stands for the number; encoding never fails on a decoded value.
- File paths with symbolic links, and file references' size and MIME type. `SafeResolve`, `FileRefFor` and `FileRefAt` belong to lib-agent-output, which is not part of this model; their string behaviour is the one the design document describes.
- Cobra's flag stripping, aliases, argument validation and lazily merged persistent flags: each command has a fixed name and flag set, and a tool's command is never the root.
- Flag schemas, `parseFindArgs`, the initialize reply, the stdio loop, group descriptions and help text beyond the commands listed: easy members.
- Identity injection is appended after the vector of `Arguments.Argv`; what the binding function returns is its own.
- SecretStore.Delete, which nothing modelled here calls.
