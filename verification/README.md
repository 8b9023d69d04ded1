# A verified model of the SFTP daemon

The daemon serves directories over SFTP. One state behind one mutex holds its configuration, the
credentials of its users, an index of their public keys and a table of open sessions; a web page
exports and imports the configuration, and a signal reloads it. This project models how that state
is rebuilt, exported and shared, what the requests of a session can do to the host's files, and the
small algorithms in between, and proves what they keep.

## How it is laid out

| file | models |
|---|---|
| `Cipher.dfy` | the padding codec of `pkg/cipher/aead.go`; AEAD and base64 are parameters with round-trip laws (`Primitives`), of which `TRANSPARENT` is an instance |
| `IpFilter.dfy`, `FilterLists.dfy` | networks and their canonical text, the filter lists and the verdict on an address |
| `ConfigModel.dfy`, `ConfigSpec.dfy` | documents, server states, and what a load, an export and each web request do to a state |
| `ConfigTheorems.dfy`, `ConfigReload.dfy`, `ConfigRuns.dfy` | invariants over runs, export and import, save and reload, the admin token |
| `Documents.dfy` | what a load makes of a document, from the texts in it: passwords, keys, web secrets, addresses, directories, the saved file |
| `ExportEffects.dfy` | what an export changes field by field, and what an export and import keep besides the credentials |
| `TokenRaces.dfy` | the admin token when config posts interleave with other requests |
| `ServerObjects.dfy`, `Loading.dfy`, `Users.dfy`, `UserTable.dfy`, `Server.dfy` | the objects (`Mapping`, `Group`, `User`, `Config`, `SFTPD`) and the methods that build and change them, proved against `ConfigSpec` |
| `Sessions.dfy` | the session table as an object, and the protocol of concurrent handlers, reloads and drops |
| `Paths.dfy` | `filepath.Clean` and the resolution of virtual paths |
| `HostFs.dfy`, `Handlers.dfy`, `VirtualFs.dfy` | the host's tree with open handles, the file requests, and the handler object |
| `Frames.dfy` | what runs of requests, with reloads in between, can do to the tree |
| `Listing.dfy` | directory listings, filtered in place, and their pages |
| `Strings.dfy`, `Wrappers.dfy` | splitting and joining, optional values, bytes |
| `Uuid.dfy` | the UUID layouts of `pkg/unique/random.go` |

Go map iteration is a choice of any remaining key. A document is what JSON carries: the exported
fields, the others zero. Nonces, tokens, random bytes, the output of programs and the entries of a
directory are parameters, and so is whether the host refuses a call for reasons of its own (`Fault`).
What makes the original panic is an outcome (`Panic`) or a condition of the method (`LoadSafe`,
`ExportSafe`, the login being in the config for `AddSession`).

## What does not hold

- `::fffe:0:0/95` and `::fffe:0:0/96` accept the same addresses but print differently, so the list
  merge keeps both. It is the only such pair (`CanonicalIsSemantic`).
- A group mapping whose directory cannot be opened is stored and saved as null; the next load of the
  saved file panics, and so does this load if a user names the group (`LoadSafe`). A web address, web
  credential or host key of 65534 or 65535 bytes modulo 65536 is loaded and saved, and then the saved
  file panics too (`WrappedAddressIsUnreadable`); for the user name, so does an export
  (`ExportSafeExactly`). Nothing else keeps the file that was just saved from
  being loaded (`SavedDocumentLoads`, and `OwnDocumentLoads` for the server at any time).
- A web address, user name or host key that is itself a ciphertext of something else does not survive
  an export and import (`PlainFieldsSurvive`, `CiphertextAsPlaintextIsLost`), and each export decrypts
  the user name once more (`UsernameSurvives`). A user name of more than 65533 bytes is exported and
  imported cut (`LongUsernameIsCut`).
- Encrypting a secret of 65534 or 65535 bytes modulo 65536 gives a text on which decryption panics,
  and other secrets of more than 65533 bytes come back cut (`WrapPanics`, `RoundTripBound`).
- The password "-" removes that of a user who was there before; a new user gets it as the password
  (`PasswordOutcome`).
- A config post reads the token before it loads and writes it back afterwards: a login, logout or
  reload in between is undone (`RestoreBringsBack`, `RestoreFollowsRuleExactly`), and a post that
  begins after another one has loaded leaves no token, if none is given out in between by the last
  step of a post or a good login (`OverlapLosesToken`).
- With a usable alias `..` a relative path leaves its mapping (`ConfinedExactly`). If the mapping is
  read-write and no writable mapping is at the root of the host, a rename follows it to files outside
  (`FrameExactly`, `ClimbingRename`).
- Making a directory where a file is succeeds without making one (`MkdirOutcome`). A mapping with a
  mode other than the three is writable (`OtherModeWrites`), but refuses every command
  (`OtherModeRefuses`).
- If the host refuses to open a file for writing, a directory that was just made for it stays. No
  other request that fails changes anything (`FailureChangesExactly`, `DirectoryIsLeft`).
- The check of readable entries is more generous than the kernel's: it lets a later class of
  permissions stand in for an earlier one (`CheckAgainstKernel`).

## Model

| member | source | states |
|---|---|---|
| Cipher.Encrypt | pkg/cipher/aead.go:53-66 | filling the buffer in place gives the 2-byte big-endian length, the secret and zeros, sealed, encoded and prefixed |
| Cipher.Padded | pkg/cipher/aead.go:54-62 | the padded buffer has room for prefix and secret and is a multiple of 128 |
| Cipher.PaddedLayout | pkg/cipher/aead.go:54-62 | the buffer byte by byte: two bytes of length, the secret, zeros |
| Cipher.DecryptOfEncrypted | pkg/cipher/aead.go:53-93 | decrypting any ciphertext of any secret gives the secret cut to its length modulo 2^16, or a panic |
| Cipher.DecryptsExactly | pkg/cipher/aead.go:68-93 | which texts decrypt, and to what: those without the prefix to themselves, a ciphertext to the value that the opened buffer begins with after its length |
| Cipher.UnpadPadded | pkg/cipher/aead.go:83-92 | reading the length prefix back from the padded buffer undoes the padding, up to uint16 arithmetic |
| Cipher.LengthPrefixWraps | pkg/cipher/aead.go:61 | truncating the length to uint16 before writing it changes neither byte; the two bytes are the length modulo 2^16 |
| Cipher.RoundTripBound | pkg/cipher/aead.go:53-93 | decrypt(encrypt(s)) is s exactly for secrets of at most 65533 bytes |
| Cipher.WrapPanics | pkg/cipher/aead.go:87-92 | the slice bound wraps and panics exactly for lengths 65534 and 65535 modulo 2^16; one's own ciphertext never gives an error |
| Cipher.DecryptedLength | pkg/cipher/aead.go:87-92 | nothing that decrypts from a ciphertext is longer than 65533 bytes |
| Cipher.PaddedIsLeast | pkg/cipher/aead.go:56-59 | the padded size is the least multiple of 128 that holds prefix and secret |
| Cipher.PaddedRevealsOnlyBucket | pkg/cipher/aead.go:56-59 | two secrets have equal padded sizes exactly if they are in the same 128-byte bucket |
| Cipher.TransparentIsLawful | pkg/cipher/aead.go:64-65 | the laws asked of seal/open and encode/decode have an instance |
| IpFilter.CanonicalIsSemantic | internal/config.go:365-379 | two networks print the same exactly if they accept the same addresses, except one pair, which is named |
| IpFilter.ContainsIsBlock | internal/types.go:179-193 | a network accepts exactly the addresses of its family in one aligned block |
| IpFilter.V4Holds | internal/types.go:179-193 | an IPv4 network holds the addresses from ::ffff:base on that share its prefix, in numbers |
| IpFilter.V6Holds | internal/types.go:179-193 | an IPv6 network holds its block without the IPv4 addresses |
| IpFilter.MappedHolds | internal/types.go:179-193 | an IPv6 network whose base is an IPv4 address holds the addresses of its block |
| IpFilter.CanonicalValid | internal/config.go:369 | the canonical form of a network is a network in canonical form |
| IpFilter.OnlyPair | internal/config.go:369 | aligned blocks that differ only inside ::ffff:0:0/96 are the /95 and the /96 at ::fffe:0:0 |
| FilterLists.HostNetHoldsOnly | internal/config.go:342-353 | a bare address becomes a network that contains only it |
| FilterLists.ParseIPNetList | internal/config.go:332-362 | the parsing loop computes the parsed list: entries in order, bad ones skipped |
| FilterLists.ParsedAccepts | internal/config.go:332-362 | a parsed list accepts an address exactly if some written entry stands for it |
| FilterLists.MergeIPNetLists | internal/config.go:365-379 | the two nested loops compute the merged list |
| FilterLists.MergedContents | internal/config.go:365-379 | the old list is a prefix; nothing is added twice, invented or left out |
| FilterLists.MergedAccepts | internal/config.go:365-379 | merging accepts the union of addresses and is empty only if both lists are |
| FilterLists.Allowed | internal/types.go:178-195 | the two scans compute the verdict: in no blacklist entry, and in the whitelist unless it is empty |
| FilterLists.MergedAllAccepts | internal/config.go:150-153 | folding the merge over the groups accepts what any of the lists accepts |
| FilterLists.MergedVerdict | internal/config.go:150-153 | the verdict after all merges: in no blacklist of user or groups, and in some whitelist unless all are empty |
| FilterLists.VerdictIgnoresOrder | internal/config.go:145-153 | the order and repetition of groups do not change the verdict |
| ConfigModel.ProcessSecureField | internal/config.go:382-401 | what the two pointers hold afterwards, for every combination of texts |
| ConfigModel.SecureFieldConsistent | internal/config.go:382-401 | afterwards the stored text decrypts to the runtime value exactly if that has at most 65533 bytes |
| ConfigModel.SecureFieldStable | internal/config.go:382-401 | processing the stored text again keeps a non-empty runtime value, whatever the old value |
| ConfigModel.DistinctNames | internal/config.go:126-140 | the group names are those written, trimmed, not blank, once each, in order of first appearance |
| ConfigModel.MergeClosedForm | internal/config.go:145-164 | an alias gets the last exec mapping among the groups, else the first mapping, in whatever order a group's map is walked |
| ConfigTheorems.SourceReopens | internal/config.go:93-114 | what is stored for a credential decrypts to what its source says |
| ConfigTheorems.LoadKeepsInv | internal/config.go:15-231 | every load, of any document, leaves index, credentials and root handles consistent |
| ConfigTheorems.ExportKeepsInv | internal/config.go:252-290 | so does every export |
| ConfigTheorems.RunKeepsInv | internal/config.go:15-290 | in every state of every run the fingerprint index agrees with the user table in both directions, credentials match their stored forms, and no two aliases of a user share a root handle |
| ConfigTheorems.IndexDetermined | internal/config.go:203-206 | with distinct fingerprints the index does not depend on the order of the user map |
| ConfigTheorems.IndexUnique | internal/config.go:203-206 | and only then: the index is determined by the users exactly if no two have keys of one fingerprint |
| ConfigTheorems.ExportsShape | internal/config.go:252-290 | after any number of exports every user of the live config has lost its stored credentials and nothing else, the secrets are in plaintext, and nothing else changed |
| ConfigTheorems.BlankedUserRestored | internal/config.go:93-114 | blank stored credentials are encrypted anew from the old runtime ones and come back equal |
| ConfigTheorems.AuthSurvivesExportImport | internal/config.go:88-113 | export any number of times, import the unedited document: every password and public-key verdict and the web password are unchanged |
| ConfigTheorems.PlainFieldsSurvive | internal/config.go:268-274 | the web address and the host key survive exactly if the plaintext is not a ciphertext of something else |
| ConfigTheorems.UsernameSurvives | internal/config.go:276-281 | for any number of exports: the web user name survives exactly if what the exports left of its stored form, which each of them decrypts again, reads as the name or as nothing |
| ConfigTheorems.InertUsernameSurvives | internal/config.go:276-281 | a name that is no ciphertext and fits the codec survives any number of exports |
| ConfigTheorems.UsernameSurvivesOnce | internal/config.go:276-281 | after one export of a name that its stored form decrypts to: exactly if it is not a ciphertext of something else |
| ConfigTheorems.LongUsernameIsCut | internal/config.go:276-281 | a plaintext name too long for the codec comes back cut to its length modulo 2^16, unless that is none of it |
| ConfigTheorems.CiphertextAsPlaintextIsLost | internal/config.go:382-390 | a web address that is a ciphertext of another one is replaced by it |
| ConfigTheorems.OwnDocumentLoads | internal/config.go:41-121 | in any consistent state: the server can load what it would write exactly if no group mapping failed to open, the four stored secrets decrypt without a panic, and no key without a stored form has a length that wraps |
| ConfigTheorems.ReadableDocumentLoads | internal/config.go:80-83 | so with secrets that fit the codec only the groups matter |
| ConfigTheorems.RestartLoads | internal/config.go:41-121 | the same for a server that starts with that document |
| ConfigTheorems.SavedDocumentLoads | internal/config.go:217-219 | the file that a load saved can be loaded in place, and after a restart, exactly if every group mapping opened and no web secret's or host key's length wraps |
| ConfigTheorems.WrappedAddressIsUnreadable | internal/config.go:382-401 | a plaintext web address of 65534 bytes modulo 65536 makes the saved file one that panics |
| ConfigTheorems.ExportSafeExactly | internal/config.go:276-281 | an export after a load panics exactly if the length of the web user name wraps |
| ConfigReload.RuntimeMappingClosedForm | internal/config.go:143-179 | each alias of a user: its own mapping if that opens, else the last exec one of the groups, else the first one, else none |
| ConfigReload.UserVerdict | internal/config.go:123-153 | the verdict for a loaded user in terms of the written lists of the user and of every group it names |
| ConfigReload.CredentialsReloaded | internal/config.go:89-120 | saved credentials are read back unchanged, in place or after a restart, also removed and undecryptable ones |
| ConfigReload.UsersReloaded | internal/config.go:217-248 | loading the config that was just saved gives every user the same credentials, filters and mapping paths and modes |
| ConfigReload.SecretsReloaded | internal/config.go:50-55 | and the same web secrets, web filter and host key |
| ConfigReload.GroupsReloaded | internal/config.go:62-86 | and the same groups but for new handles |
| ConfigRuns.TokenOfLastLogin | internal/http.go:78-90 | if no request comes between the steps of a config post: a token is valid exactly if it is the non-empty one of the latest good login with no logout, file reload or later login since; posts and exports keep it |
| ConfigRuns.OnlyTokenChanges | internal/http.go:313-336 | a login or logout changes nothing but the token, and a login does so exactly with the user name and password of the config |
| ConfigRuns.AuthSurvivesInRun | internal/config.go:252-290 | anywhere in any run: exports followed by an import through the web or the file leave all verdicts as they were |
| Documents.PasswordOutcome | internal/config.go:93-190 | for every login of a loaded document: a blank text keeps the old password, in its stored form if there is one; "-" removes an old user's, after which no password is accepted; a plaintext becomes the password and is encrypted; a ciphertext is kept and decrypted |
| Documents.PubKeyOutcome | internal/config.go:106-200 | the same for the public key, for which "-" is a text like any other and one that does not decrypt stands for itself |
| Documents.PasswordVerdict | internal/config.go:293-302 | which passwords are accepted after a load, from the text in the document: exactly that plaintext, exactly what that ciphertext decrypts to, exactly the old one, or none |
| Documents.KeyVerdict | internal/config.go:305-316 | a fingerprint is accepted exactly if a user of the document has a key of it, and as such a user |
| Documents.WrittenKeyAccepted | internal/config.go:193-206 | the owner of a written key that nobody shares is let in by it |
| Documents.SetUpExactly | internal/config.go:117-120 | a user is set up exactly if it has a stored credential after the load; any other has no login, no credential and no directories |
| Documents.SecretsOutcome | internal/config.go:41-55 | the web address and credentials and the host key from the texts in the document, with their fallbacks; no token |
| Documents.WebVerdict | internal/http.go:281-329 | the administrator of a document with plaintext credentials logs in with exactly these |
| Documents.WebAddressVerdict | internal/http.go:113-131 | which addresses may use the web pages, in terms of the written lists |
| Documents.AddressVerdict | internal/types.go:178-195 | from which addresses a user may log in, in terms of the written lists of the user and of the groups the document says it is in |
| Documents.MappingOutcome | internal/config.go:143-179 | which directory each alias of a user leads to, from the entries in the document, and that just the exec ones have no handle |
| Documents.SavedDocument | internal/config.go:234-249 | the file a load saves has every setting of the document, of the group mappings those that work, and no secret in the clear |
| Documents.PlainDocumentLoads | internal/config.go:15-231 | a document without ciphertexts and over-long secrets whose groups all open loads in any consistent state |
| ExportEffects.ExportOutcome | internal/config.go:252-290 | what an export writes over in the live config, and that all other fields of it and of every user stay |
| ExportEffects.ExportedDocument | internal/config.go:252-290 | the exported document has the settings of the config, no user's credentials and no web password, and the other secrets in the clear |
| ExportEffects.SettingsSurvive | internal/config.go:252-290 | any number of exports and an import leave MaxSessions, groups, filters and own mappings of every user, the groups' filters, and addresses, ids and filter of the config as they were |
| ExportEffects.SettingsSurviveInRun | internal/config.go:252-290 | so it is anywhere in any run, by the web or by a file |
| ExportEffects.RunPlaces | internal/config.go:123-179 | in every state of every run, exports included, whoever can log in has the filter and directories that the current config says |
| ExportEffects.AccessSurvives | internal/config.go:252-290 | any number of exports and an import: whoever could log in can do so from the same addresses to the same directories |
| ExportEffects.AccessSurvivesInRun | internal/config.go:252-290 | so it is anywhere in any run, by the web or by a file |
| TokenRaces.PostIsThreeActions | internal/http.go:168-204 | reading the token, loading and restoring it with nothing in between is the post of the sequential runs |
| TokenRaces.RestoreBringsBack | internal/http.go:173-201 | among any other requests and posts: after its last step the token is the one the post read, whatever happened in between |
| TokenRaces.OverlapLosesToken | internal/http.go:173-201 | a post that reads the token any time after another has loaded, with no token given out in between, leaves no token |
| TokenRaces.RestoreFollowsRuleExactly | internal/http.go:173-201 | a post leaves the token of the sequential rule exactly if that is still what it was when the post read it |
| TokenRaces.SerialFollowsRule | internal/http.go:168-204 | if no post begins and nobody logs in, logs out or reloads during a post, the rule holds whenever no post is in progress |
| ServerObjects.User.Copy | internal/config.go:262 | a shallow copy shares both maps of the user it copies |
| ServerObjects.Config.Encode | internal/config.go:234-249 | the encoded document is the exported fields of the config's state and nothing else |
| ServerObjects.CopyUsers | internal/config.go:258-266 | the table gets copies that differ from the originals in their blank stored credentials only and share their maps |
| ServerObjects.Config.ExposeSecrets | internal/config.go:268-285 | host key, web address and user name in the clear, web password blank |
| Loading.OpenMappings | internal/config.go:75-84 | every non-exec group mapping gets a handle of its own on its path, or becomes null |
| Loading.LoadGroups | internal/config.go:62-86 | the loops over the groups: filters parsed, roots opened, no handle shared between or within groups |
| Users.RestoreCredential | internal/config.go:93-112 | a blank credential falls back to the old user's, encrypted anew if its stored form is blank; "-" leaves none where it may; any other text stays |
| Users.ListGroupNames | internal/config.go:126-140 | the loop with its seen-set computes the distinct names |
| Users.MergeGroupMapping | internal/config.go:157-162 | copies of a group's mappings, an exec one over anything, another only over nothing, sharing the handle |
| Users.AddOwnMappings | internal/config.go:167-179 | own mappings that open replace the groups', with handles of their own; the others are skipped |
| Users.MergeUserGroups | internal/config.go:145-164 | the loop over the group names merges filters and mappings in order and only reads the groups |
| Users.MergedRootsOk | internal/config.go:155-163 | handles merged from several groups stay distinct per alias |
| Users.FinishPassword | internal/config.go:182-190 | the password is encrypted if it is not, and decrypted; if that fails the runtime value stays |
| Users.FinishPubKey | internal/config.go:193-213 | the same for the key, which is taken as it stands if it does not decrypt, and its fingerprint |
| Users.LoadUser | internal/config.go:89-214 | the loop body as a whole takes a document user to a state that the specification allows |
| UserTable.LoadUsers | internal/config.go:89-215 | the loop over the users in any order builds a user table and an index that agree |
| UserTable.IndexStep | internal/config.go:205-206 | indexing one more user keeps the agreement, also over an entry of equal fingerprint |
| Server.SFTPD.LoadHttp | internal/config.go:41-59 | the three web secrets with their fallback, and the web filter |
| Server.SFTPD.BuildConfig | internal/config.go:36-214 | the new config is made of new objects; the live one is only read |
| Server.SFTPD.LoadConfig | internal/config.go:15-231 | on a decoding error nothing changes; otherwise config and index are replaced as specified (what that makes of each text of the document is in the rows of `Documents`), saved, and every registered connection is closed, which is a reload of the session protocol; within a user no two aliases share a mapping object |
| Server.SFTPD.SaveConfig | internal/config.go:234-249 | the file holds the exported fields of the current config |
| Server.SFTPD.ExportConfig | internal/config.go:252-290 | the live config itself is changed, as `ExportEffects.ExportOutcome` says, and no session limit is: the new users share the maps of the old ones, and no indexed object is in the table any more |
| Server.SFTPD.GetUserByPassword | internal/config.go:293-302 | the user of the table under the login, exactly if its runtime password is not empty and equal |
| Server.SFTPD.GetUserByLogin | internal/config.go:319-329 | the object of the login's user in the server's state, or null if the state has no such user |
| Server.SFTPD.GetUserByPublicKey | internal/config.go:305-316 | the object indexed under the fingerprint |
| Server.SFTPD.IsValidToken | internal/http.go:78-90 | true exactly for the current token if it is not empty |
| Server.SFTPD.IsIPAllowed | internal/http.go:113-131 | the verdict of the web filter |
| Server.SFTPD.HandleLogin | internal/http.go:281-329 | the token is issued exactly for an address that the web filter lets in and the user name and password of the config; otherwise nothing changes |
| Server.SFTPD.HandleLogout | internal/http.go:331-336 | the token is cleared and nothing else changes |
| Server.SFTPD.RestoreToken | internal/http.go:199-201 | the last step of a post sets the token to the one that was read and changes nothing else |
| Server.SFTPD.HandleConfigPost | internal/http.go:168-204 | if nothing comes between its steps: the document is loaded and the token survives, or nothing changes |
| Server.SFTPD.ExportAndImport | internal/http.go:168-211 | the web page gets the config and posts it back: all verdicts and the token are as before |
| Server.SFTPD.HandleHangup | cmd/main.go:43-44 | a reload from the file, which drops the token |
| Server.SFTPD.AddSession | internal/sftp.go:140-165 | adds the session exactly if the login's current MaxSessions is not positive or it has fewer entries than that: a step of the session protocol |
| Server.SFTPD.DeleteSession | internal/sftp.go:168-183 | a deletion of the session protocol |
| Server.SFTPD.DropLogin | internal/sftp.go:126-137 | a drop of the session protocol |
| Server.SFTPD.Admit | internal/sftp.go:47-65 | a connection is admitted exactly if its login is configured, its address allowed and a session free; a refused one is closed |
| Sessions.SessionTable.AddSession | internal/sftp.go:144-161 | admitted exactly without a limit or below it; the table afterwards; a refusal leaves no empty map behind |
| Sessions.SessionTable.DeleteSession | internal/sftp.go:168-183 | removes just that entry, and the login with its last one; the connection is to be closed |
| Sessions.SessionTable.DropLogin | internal/sftp.go:126-137 | removes the login and has all its connections closed |
| Sessions.SessionTable.CloseAll | internal/config.go:222-229 | closes every registered connection and leaves the table alone |
| Sessions.RunKeepsInv | internal/sftp.go:126-183 | the invariant of the protocol in every interleaving of handlers, reloads, drops and disconnects |
| Sessions.SessionLimitHolds | internal/sftp.go:152-156 | in every reachable state of the protocol, which the server's methods step through, the open sessions of a login are at most its current positive MaxSessions, also after a reload lowers it; a login that is no longer configured has none |
| Sessions.AdmittedExactly | internal/sftp.go:152-161 | in every run a connection comes into the table exactly if its login has no limit or fewer entries, under its address; nothing else changes |
| Sessions.TableIsHistory | internal/sftp.go:140-183 | the table holds exactly the admitted connections not deleted or dropped since |
| Sessions.ReloadCutsEarlier | internal/config.go:222-229 | a reload cuts every session admitted before it, for good: one that is registered and open afterwards was added after the reload |
| Sessions.OneLoginEach | internal/sftp.go:144-161 | no connection is under two logins, no login has an empty map |
| Sessions.ReturnRemovesOnlyItself | internal/sftp.go:168-183 | a late deletion after a drop never removes a newer session |
| Sessions.EmptyWhenAllReturned | internal/sftp.go:65 | the table is empty once all handlers have returned |
| Paths.CleaningRules | internal/handlers.go:65 | the documented rewriting rules of filepath.Clean do not change its result |
| Paths.ElementsNormal | internal/handlers.go:65 | a cleaned path has plain elements, after leading ".." if it is not rooted |
| Paths.WrittenElements | internal/handlers.go:65 | elements in normal form are what a path written from them cleans to |
| Paths.CleanIdempotent | internal/handlers.go:65 | cleaning twice is cleaning once |
| Paths.ResolveElements | internal/handlers.go:60-89 | resolution in terms of the cleaned elements: the first is the alias, the others are the path inside |
| Paths.ResolveConfined | internal/handlers.go:60-89 | the path inside a non-exec mapping is "." or plain elements, for every string but relative ones that climb to an alias ".." |
| Paths.ConfinedExactly | internal/handlers.go:60-89 | all strings resolve to confined paths exactly if the user has no usable alias ".." |
| Paths.ResolveVirtualPath | internal/handlers.go:60-89 | "/alias/rel" resolves to exactly that alias and path |
| Paths.RootedAlias | internal/handlers.go:60-89 | a rooted path resolves to a plain alias, never to ".." |
| Paths.ResolveNormal | internal/handlers.go:60-89 | the path inside a mapping has ".." in front only, whatever the alias |
| Paths.ResolveAgain | internal/handlers.go:60-89 | a resolution can be asked for again by its own names exactly if its alias is not "." or ".." |
| Paths.BaseIsName | internal/handlers.go:243 | the name that a listing shows for a path is its last element, whatever slashes follow |
| HostFs.MovedNodes | internal/handlers.go:190-193 | a rename in closed form: where every node of the new tree comes from |
| HostFs.RenameKeeps | internal/handlers.go:190-193 | a rename keeps the tree a tree and every handle on its node |
| HostFs.RemoveKeeps | internal/handlers.go:172 | so does a removal |
| HostFs.StoreAllOutcome | internal/handlers.go:152 | data sent in pieces to a descriptor patches that file and nothing else |
| HostFs.PiecesGiveContent | internal/handlers.go:152 | pieces that cover a content give it in any order and however often they come |
| HostFs.PatchedBytes | internal/handlers.go:152 | for any pieces: each byte is that of the last piece that has it, else what was there, else zero |
| Handlers.RenameSameAlias | internal/handlers.go:184-198 | a rename that succeeds or changes anything has source and target under one alias, which is read-write |
| Handlers.ExecTouchesOutputOnly | internal/handlers.go:123-141 | requests to exec mappings change at most that alias's output, to what the program printed, and never the tree |
| Handlers.UnresolvedRefused | internal/handlers.go:60-89 | requests by a path with "~" or to no mapping do nothing |
| Handlers.UnresolvedTarget | internal/handlers.go:184-188 | and neither does a rename to such a path |
| Handlers.EscapeRefused | internal/handlers.go:92-182 | what goes up out of the mapping, or into one whose directory is gone, is an error and changes nothing, except for renames |
| Handlers.ReadOutcome | internal/handlers.go:92-114 | what is read: the node at the path, or what the program of an exec mapping printed last |
| Handlers.PrintedThenRead | internal/handlers.go:92-141 | reading an exec mapping gives what its program printed when it was last opened for writing |
| Handlers.NoProgram | internal/handlers.go:123-141 | an exec mapping that names no program is not opened |
| Handlers.ReadOnlyRefuses | internal/handlers.go:143-170 | writes to a read-only mapping and commands in it are forbidden and change nothing |
| Handlers.WriteOutcome | internal/handlers.go:143-157 | when a file is opened for writing, in any mode that allows it, and the whole state afterwards |
| Handlers.MakeDirRequest | internal/handlers.go:177-182 | Mkdir as a request: completed exactly if something is there or the place is free; then something is there, and no node is lost or changed |
| Handlers.RemoveRequest | internal/handlers.go:171-175 | Remove and Rmdir as requests: completed exactly for a node with nothing in it that is not the mapping's own directory; then just that node is gone |
| Handlers.MoveRequest | internal/handlers.go:184-198 | Rename as a request: completed exactly if both paths are in one read-write mapping and the host can do it; then the tree is the moved one |
| Handlers.OpenForWriteOutcome | internal/handlers.go:147-156 | opening for writing succeeds exactly if the file is there or at most its directory is missing and the host refuses nothing; it adds an empty file and that directory, or changes nothing, except that a directory stays when the host then refuses the file |
| Handlers.FailedOpenChangesExactly | internal/handlers.go:147-156 | opening that fails changes the tree exactly if the directory was missing, could be made, and the host then refuses the file |
| Handlers.FailureChangesExactly | internal/handlers.go:92-202 | a request is refused or fails and yet changes something exactly if it is a write to a writable mapping whose file's directory is missing and can be made, and the host refuses the file after that; it leaves just the directory |
| Handlers.DirectoryIsLeft | internal/handlers.go:147-156 | for every writable mapping without a "d" in its directory, a request that does |
| Handlers.FailureChangesNothing | internal/handlers.go:92-202 | so a request that is refused or fails leaves tree, handles and outputs as they were, but for such a directory |
| Handlers.OtherModeWrites | internal/handlers.go:143-157 | with a mode other than the three, a file is opened for writing exactly if a read-write mapping would open it |
| Handlers.OtherModeRefuses | internal/handlers.go:166-170 | but every command comes back as forbidden and changes nothing |
| Handlers.MkdirOutcome | internal/handlers.go:177-182 | when a directory is reported as made, what is there then, and that no other node changes |
| Handlers.RemoveOutcome | internal/handlers.go:171-175 | a removal succeeds exactly for a node with nothing in it, and takes only that |
| Handlers.WriteThenRead | internal/handlers.go:92-157 | a file is read back as it was sent at offsets, whatever the order of its pieces |
| Handlers.SendAfterMove | internal/handlers.go:152-195 | a file that is renamed while it is open for writing gets the data, at its offsets, under its new name |
| Handlers.MoveThenRead | internal/handlers.go:184-195 | after a rename the new path reads as the old one did, and the old one is gone |
| Frames.RootedNeverClimbs | internal/handlers.go:60-89 | a rename with a rooted path never climbs out of its mapping |
| Frames.OpenConfined | internal/handlers.go:147-156 | opening for writing changes only nodes below a writable mapping |
| Frames.MoveConfined | internal/handlers.go:184-195 | so does a rename that does not climb: the mapping's own directory is neither moved nor replaced |
| Frames.StepConfined | internal/handlers.go:92-202 | so does every request, and every handle and open file stays in the writable parts, if the request does not climb or the whole tree is writable |
| Frames.OpenRootConfined | internal/config.go:72-86 | handles that a load opens, at any time, are inside the writable parts |
| Frames.RunConfined | internal/handlers.go:92-202 | over any run of requests by any sessions with loads in between, every node not below the host path of a writable mapping is unchanged, although handles follow renamed directories: if there is no way out or nobody climbs |
| Frames.FrameExactly | internal/handlers.go:92-202 | every request in every contained state keeps that frame exactly if a writable mapping is at the host's root or nobody has a read-write mapping ".." |
| Frames.ClimbingRename | internal/handlers.go:190-193 | for every set of mappings without one at the root, and every read-write mapping ".." in it: paths by which a rename moves a file outside all of them |
| Frames.ServedTablesOk | internal/config.go:72-179 | the mappings of every user in every state of every run of the server are as the requests need them |
| Frames.RenameInServerRun | internal/config.go:72-179 | so in every session of every run, a rename that succeeds stays under one read-write alias |
| Frames.ServerFilesFramed | internal/handlers.go:92-202 | and the frame holds for a running server with respect to the mappings it ever served, sessions that outlive a reload included |
| VirtualFs.Handler.ResolveMapping | internal/handlers.go:60-89 | the method computes the resolution and returns the mapping object |
| VirtualFs.Handler.Fileread | internal/handlers.go:92-114 | reads the stored output or opens below the handle, and changes nothing |
| VirtualFs.Handler.Filewrite | internal/handlers.go:117-157 | stores the program's output, or makes one directory and opens the file, in that order |
| VirtualFs.Handler.Filecmd | internal/handlers.go:160-202 | removes, makes or renames only in read-write mode: the reply and the state of `Handle`, of which the rows on requests say what they are |
| VirtualFs.Handler.Filelist | internal/handlers.go:205-304 | what is listed for the root, for an exec mapping and a file, with name and size, and for a directory |
| VirtualFs.ListedSizeIsRead | internal/handlers.go:241-250 | the size listed for an exec mapping is that of what reading it gives |
| Listing.FilterEntries | internal/handlers.go:276-298 | compacting into the array that is read leaves exactly the shown entries at its front |
| Listing.KeptExactly | internal/handlers.go:277-298 | the entries kept are the shown ones, each once, in their order |
| Listing.KeptMeans | internal/handlers.go:277-298 | an entry is kept exactly if it is a file or directory that its own stat data, else that of its path, lets be read |
| Listing.CheckAgainstKernel | internal/handlers.go:307-319 | the check never hides what the reader may read, and exactly when it shows more |
| Listing.ReadableByDigits | internal/handlers.go:307-319 | the check in terms of the octal digits of the mode |
| Listing.ListTop | internal/handlers.go:208-232 | every mapping but the exec ones once, with the permissions of its mode, in any order |
| Listing.MountsMean | internal/handlers.go:208-232 | 0555 for a read-only mapping, 0755 for a read-write one, no exec one, no alias twice |
| Listing.ListAt | internal/types.go:86-101 | the page copied into the caller's buffer, the rest of it untouched, and when the end is reported |
| Listing.PagedDelivers | internal/types.go:86-101 | the pages of any buffer sizes are the listing from its start, and the end is reported exactly if there was room for all of it |
| Listing.PagingEnds | internal/handlers.go:300-303 | with non-empty buffers the end is reached and delivers ".." and the shown entries |
| Uuid.GenerateUUIDv7 | pkg/unique/random.go:30-42 | the buffer steps give the layout: 48-bit time, random bytes, version and variant |
| Uuid.GenerateUUID | pkg/unique/random.go:19-27 | the same for version 4 |
| Uuid.Layout | pkg/unique/random.go:33-41 | the version and variant digits of section 5.7 of RFC 9562, and the time is recovered from the string |
| Uuid.VersionAndVariant | pkg/unique/random.go:23-24 | the version and variant digits for any random bytes |
| Uuid.DigitsAreLowerCase | pkg/unique/random.go:26 | the hexadecimal digits are 0 to 9 and a to f |
| Uuid.OctetsReadBack | pkg/unique/random.go:25-26 | the string is the sixteen octets in hexadecimal digits with four dashes |
| Uuid.RandomKept | pkg/unique/random.go:19-27 | all random bits of version 4 but six are in the string |
| Uuid.RandomKeptV7 | pkg/unique/random.go:36-41 | all random bits of version 7 but six are in the string |
| Uuid.EarlierIsSmaller | pkg/unique/random.go:33-41 | an earlier millisecond gives the lexicographically smaller string, whatever the random bytes |

## Left out

- The SSH handshake, channels and the listener: a connection is an identity; of `handleConn` there are admission, registration and deletion.
- HTTP routing, cookies, TLS, the embedded pages and the reading of the client's address: requests are already decoded.
- JSON text, `net.ParseIP`, `net.ParseCIDR`, `ssh.ParseAuthorizedKey` and white-space trimming: partial functions on entries that are already split. The text of a network is taken to be injective on its canonical form.
- A null user, a null group or a null entry among a user's own mappings: the original panics on them, the model's documents cannot hold them. Null group mappings are in the model.
- AES-GCM, base64 and the derivation of the key: only their round-trip laws. Ciphertexts that collide under different nonces are not excluded.
- LoadConfig: decoding is fused with the loops over groups and users, and a user's credentials and filters are computed before they are stored in its new object, which nobody else sees yet.
- ExportConfig: the copies of the users are put into the live table together after the loop; the mutex is held throughout.
- Backing arrays of the filter slices, which `append` may share: lists are values.
- Failures to write the config file and its ownership; the model's file holds what was saved last.
- `DropLogin` and the UUID functions have no callers in the repository. In the protocol a login may be dropped at any time.
- HandleConfigPost: as a method it is one step; `TokenRaces` takes its three steps apart. That a fresh token differs from older ones, and the reads of the web credentials outside the mutex in `handleLogin`, are not modelled.
- Session timestamps and `updateActivity`, which no decision reads.
- Admit: nothing comes between its three steps. In the protocol of `Sessions` anything may, and a handler may add its session on any earlier knowledge of the user.
- Symbolic and hard links and permissions on the host: the tree has none; the host may refuse a call at will, but not do half of one. Opening a root is a given partial function of the path, and relative mapping paths are read from "/".
- Fault: a write is one step with its two calls to the host, and each piece of data arrives whole. Appending and the limit on open files are not modelled.
- The programs of exec mappings: only what they print, and whether the path names one.
- Filelist: the modification times and permissions of listed files, and the size shown for a directory, are not modelled.
- Browser code, logging, daemonising, and signals other than the reload.
