# go-httpd, verified

A Dafny model of the parts of go-httpd that hold state machines, codecs and arithmetic, with proofs of what
those parts promise. `dafny verify dfyconfig.toml` checks all of it.

| file | models |
|---|---|
| Cond.dfy, Route.dfy, Regexp.dfy | route conditions, the pattern compiler, and the anchored greedy regexps it produces (`route/`) |
| RoutePatterns.dfy, RouteRoundTrip.dfy | what parsing a pattern promises; conditions and substitution, there and back |
| RouteWritten.dfy | patterns as text, `{name}` and `{name:pattern}`, and the routes they mean |
| Router.dfy | base path, first-match scan, variables of a match |
| Storage.dfy, ConcurrentStorage.dfy | expiring session storage, one call at a time and as interleaved atomic steps |
| Session.dfy, SessionRuns.dfy | the write-back session cache and its cookie; whole runs |
| Cookies.dfy | Set-Cookie lines as an ordered map |
| Transaction.dfy | the response: header sent once, session saved before it |
| Requests.dfy | one request after another: what a session saved by one transaction is to the next |
| Varint.dfy, Base64.dfy, Auth.dfy | the password record: LEB128 varints, byte strings, unpadded base64 |
| Passwords.dfy | Set, Verify and Change over an account store |
| Shutdown.dfy | graceful shutdown as an interleaved step system |
| ShutdownTimeouts.dfy | which servers are shut down gracefully and which are closed |
| CleanPath.dfy | path canonicalisation and the redirect |
| Strings.dfy | prefixes, searching, trimming |

How to read it. An object whose methods update its fields is a class; every method says exactly what the new
field values are, as a function of the old ones (`AfterSave`, `Put`, `Parsed`, `VerifyResult`, ...). The lemmas
about runs are about those functions. Concurrency is a function from a list of steps to a state, so a statement
about all lists is one about all interleavings.

Ways of standing for things. A flag word used only through `|`, `&` and comparison with zero is the set of its
one bits. Strings are sequences of characters. Instants and durations are unbounded integers of nanoseconds.
Go's `int` and `uint64` in the password record have their 64-bit ranges and conversions. Time, uuid.Gen, the
success of gob encoding, the salt, and the success of the account store's writes are arguments chosen by the
caller of each method, so the theorems hold for every choice. scrypt is an arbitrary function. An id from
uuid.Gen is any text, and the cookie lemmas say what depends on its being one that `isValidSessionID` accepts.
A Go panic on a slice bound is a value (`None`, `Panicked`, `Panic`).

Where the code does less than its documentation or a caller would have it, the model follows the code
and the gap is stated exactly:

- A route with a variable called `_` never matches (`Router.UnderscoreExact`).
- The error of uuid.Gen is overwritten in `Session.Save`; the session then stays out of sync exactly when an id
  was needed and none was made (`SessionRuns.SaveKeepsSync`).
- `Config.CheckPassword` ignores its receiver and hashes with `DefaultConfig`. A password that was set is sure
  to verify exactly when the configuration agrees with it in N, R, P and HashLen, or lets no Set succeed at all
  (`Passwords.VerifiesExactlyWhenAgreeing`).
- The calls of the in-memory storage are not atomic. A live entry can be lost, a deleted session can come back,
  and an update can be undone; from a given state each is possible exactly when certain calls are in flight
  (`ConcurrentStorage.FreshEntryKept`, `DeletedStaysDeleted`, `UpdateKept`).
- A base path that lacks its leading slash and has a trailing one needs two calls of Add to become normal
  (`Router.AdjustOnce`, `Router.AdjustTwice`).
- Separators without a condition in front of a path are not cut off (`RoutePatterns.PathPartRooted`).

## Model

| member | source | states |
|---|---|---|
| Cond.ParseCondFlags | route/cond.go:61-92 | succeeds exactly for `["*"]` or nine-method tokens, yielding the bits named by the tokens; otherwise reports the first invalid token with the bits of those before it |
| Cond.BitsOfSet | route/cond.go:67-91 | the parsed flags depend only on which tokens occur, not on order or repetition |
| Cond.String | route/cond.go:22-59 | writes the names of the set method bits in fixed order joined by a bar, `*` when there are none, whatever other bits are set |
| Cond.NamesRoundTrip | route/cond.go:22-92 | the names written for any 64-bit word are all valid and parse back to the word masked to its nine method bits |
| RouteRoundTrip.SplitListed | route/route.go:10-43 | splitting tokens listed with bars and any white space around the bars gives the tokens back |
| RouteRoundTrip.ConditionsParsed | route/route.go:33-55 | conditions in front of a rooted path, with white space anywhere and stray bars at both ends: the path's own route with exactly the bits the tokens name, rejected exactly when the path is or a token names no method |
| RouteRoundTrip.ConditionsRoundTrip | route/route.go:33-55 | for every flag word and rooted path, parsing the word's text, a space and the path gives the path's own route with exactly the word's nine method bits, and is rejected exactly when the path alone is |
| Regexp.FindCorrect | route/router.go:81-84 | the greedy backtracking search succeeds exactly when a decomposition of the path exists, returns one, and returns the lexicographically longest |
| Regexp.RetreatCorrect | route/router.go:81-84 | giving characters back one at a time finds the greediest decomposition within a bound on the first group |
| Regexp.GreediestUnique | route/router.go:81-84 | two greediest decompositions are equal |
| Regexp.FindSubstituted | route/route.go:100-131 | when what follows each variable is outside its class, as a slash is for the default, matching a substituted pattern, followed by anything when it is a prefix, returns exactly the substituted values |
| Regexp.DecompositionUnique | route/route.go:100-131 | then a path has at most one decomposition at all |
| Regexp.ClassExact | route/route.go:14 | a run of a class has only its characters, or none of those it excludes |
| Route.Route.Parse | route/route.go:33-140 | sets the receiver to the route the pattern denotes, exactly when it denotes one; a stale prefix flag stays; otherwise the error names the first fault: no slash, the first invalid condition, the first repeated name, a pattern the regexp library rejects |
| Route.Route.CompileVars | route/route.go:78-139 | the segmentation loop builds regexp, entry prefix and variable table of exactly the pieces of the pattern; it fails with the first repeated name, or when there is none with a rejected regexp, exactly when there is such a fault |
| Route.FaultExact | route/route.go:33-140 | only rejected patterns have a fault, and only one, so the reported error is determined |
| Route.Route.ReadVar | route/route.go:98-107 | name and own pattern of one variable, with the default for a missing or empty one |
| Route.VarIndexSnoc | route/route.go:109-115 | a name is a duplicate exactly when it is already in the table, `_` never is; otherwise the table grows by its position |
| RoutePatterns.FindAllComplete | route/route.go:67-69 | no variable starts outside the ones the scan reports |
| RoutePatterns.FindAllSound | route/route.go:67-69 | everything reported is a variable with exactly these bounds |
| RoutePatterns.SegmentationCovers | route/route.go:85-126 | plain chunks and variable chunks concatenate to the whole path pattern |
| RoutePatterns.VarIndexBijection | route/route.go:109-115 | the variable table is injective into the positions, holds every name but `_`, and covers all positions exactly when none is `_` |
| RoutePatterns.ParsedWellFormed | route/route.go:76-139 | a parsed route's entry prefix is exactly its regexp's literal start, its variable indices are distinct capture positions, and it ends in `$` exactly when it is no prefix |
| RoutePatterns.AcceptedExactly | route/route.go:34-139 | a pattern is accepted exactly when it has a slash, valid conditions, no repeated name but `_`, and compilable variable patterns |
| RoutePatterns.PathPartRooted | route/route.go:41-45 | the path part starts with its slash exactly when there are real conditions or nothing before the slash |
| RouteWritten.ScanShown | route/route.go:11 | a `{name}` or `{name:pattern}` where it is written, with white space as allowed, is found there with exactly these bounds, and stands for its name and own pattern, or the default |
| RouteWritten.ScanFindsShown | route/route.go:11 | whatever the scan finds is a `{name}` or `{name:pattern}` written there |
| RouteWritten.FindsWritten | route/route.go:67-131 | scanning a pattern written from text, `{name}` and `{name:pattern}` finds exactly those parts |
| RouteWritten.WrittenParsed | route/route.go:57-139 | a written pattern, with or without the final `!`, parses to exactly the route meant: own pattern or default of each variable, entry prefix, table, prefix flag; rejected exactly for a repeated name or a pattern the library rejects |
| RouteWritten.PlainRoundTrip | route/router.go:64-78 | a written pattern without variables accepts exactly its path, or everything starting with it when it ends in a slash without a mark |
| RouteWritten.SubstituteRoundTrip | route/route.go:57-138 | write a pattern, parse it, fill its variables with any values of their classes: the route matches the result, with any continuation for prefixes, and yields each value under its variable's name |
| RouteWritten.SlashFreeSuits | route/route.go:14 | for default variables each followed by a slash or last, any non-empty values without a slash will do |
| RouteRoundTrip.PatternRoundTrip | route/router.go:64-86 | for every pattern that parses, whatever its conditions, spaces, braces and final `!`, whose variables are each followed by text outside their class or end it: with any fitting values filled in, the route accepts the path exactly for requests under its conditions, unless a variable is called `_`, and the values handed out are exactly those, each under its name |
| Router.EntryPrefixFilterSound | route/router.go:69-72 | dropping the entry prefix filter never changes the answer of a route with variables |
| Router.TryCorrect | route/router.go:64-86 | the tests in the scan accept exactly the paths of the route's language under its conditions, hand out the greediest captures, and every table index is in range of them |
| Router.UnderscoreExact | route/router.go:82 | a pattern route accepts exactly the decomposable paths, unless a variable is called `_`, when it accepts none |
| Router.FirstMatchStable | route/router.go:32-43 | appending routes keeps the first match of every request that had one, and it stays the only first match |
| Router.AdjustOnce | route/router.go:17-29 | one Add normalises exactly the base paths that are empty, start with a slash or do not end with one, and keeps normal ones; it only takes slashes off the end or puts the missing one in front |
| Router.AdjustTwice | route/router.go:17-29 | two Adds normalise every base path, and later ones keep it |
| Router.Router.NormalizeBasePath | route/router.go:17-29 | the trimming loop removes exactly the trailing slashes |
| Router.Router.Add | route/router.go:15-43 | appends the parsed route with its handler, or leaves the table as it was when the pattern is rejected; keeps the table well formed |
| Router.Router.Match | route/router.go:45-90 | returns the least-index route that accepts the request below the base path, with greediest captures, and base path plus match path is the request; no match means no route accepts |
| Router.MatchAddMatch | route/router.go:15-90 | on a normal base path, Add never changes the route, path or values of a request already matched, and a rejected Add changes no answer |
| Router.CapturesUnique | route/router.go:81-84 | a route hands out one possible list of values for a path |
| Router.Match.Variables | route/match.go:13-21 | every name with the value at its index, each index in range |
| Router.Match.Var | route/match.go:24-32 | the value of a name, or the fallback, with the index in range |
| Storage.MemoryStorage.GetSessionData | session/storage.go:62-72 | answers the unexpired data, or not found, or expired once while dropping the entry |
| Storage.MemoryStorage.SetSessionData | session/storage.go:74-77 | the entry becomes the data with expiry now plus TTL, all others stay |
| Storage.MemoryStorage.RefreshSessionData | session/storage.go:79-88 | extends the expiry of a present entry, expired or not, without touching data; not found otherwise |
| Storage.MemoryStorage.DelSessionData | session/storage.go:90-93 | the entry is gone, all others stay |
| Storage.LazyRefinesEager | session/storage.go:62-93 | on every run with a monotone clock, each call has the same outcome as on a store that drops entries the moment they expire, exactly when no Refresh meets an entry that has expired but was not collected |
| Storage.RefreshRevives | session/storage_test.go:46-57 | for any expired uncollected entry, Refresh then Get finds its data, where an eager store fails both |
| Storage.LastWriteDecides | session/storage.go:62-93 | on a monotone clock, after a Set, Refresh or Del every later Get of the id finds the data set or kept exactly until the time of that write plus its TTL, and nothing after it, or after a Del or a Refresh of an unknown id |
| Storage.GoneStaysGone | session/storage.go:62-93 | an absent id answers not found until the next Set, on any run and clock |
| Storage.ExpiredOnce | session/storage_test.go:35-44 | after one expired answer, every later Get answers not found until the next Set |
| ConcurrentStorage.GetProvenance | session/storage.go:62-88 | in every interleaving of the atomic steps, data returned by a Get was passed to a Set of that id, under an expiry computed for that id and not passed when checked |
| ConcurrentStorage.HistoriesGrow | session/storage.go:62-88 | what was written and returned is never forgotten along a run, so the Set came before the return |
| ConcurrentStorage.UninterruptedCall | session/storage.go:62-93 | the atomic steps of a call that is not interrupted have exactly the effect and the answer of the call |
| ConcurrentStorage.FreshEntryKept | session/storage.go:62-88 | a live entry survives every continuation without a Del of it, up to an instant it and all new expiries reach, exactly when no call in flight is about to delete it or holds an entry of it that expires earlier |
| ConcurrentStorage.DeletedStaysDeleted | session/storage.go:74-93 | an absent id stays absent over every continuation without a new Set of it exactly when no Set or Refresh in flight carries an entry of it |
| ConcurrentStorage.UpdateKept | session/storage.go:74-88 | nothing but this data is found under an id over every continuation without a new Set of it exactly when no Set or Refresh in flight carries other data |
| ConcurrentStorage.FreshEntryLost | session/storage.go:62-70 | an interleaving, for any id and data, where an expired Get deletes a live entry stored meanwhile |
| ConcurrentStorage.DeletedComesBack | session/storage.go:79-93 | an interleaving where a Refresh in flight brings back a deleted session, without any Set |
| ConcurrentStorage.UpdateUndone | session/storage.go:74-88 | an interleaving where a Refresh in flight undoes a completed Set |
| Cookies.HeaderSetCookie | util/util.go:22-40 | replaces the first line of the same name in place or appends; fails without change exactly when the cookie has no name |
| Cookies.HeaderIsOrderedMap | util/util.go:22-40 | from an empty header, any calls leave the distinct valid names in order of first insertion, each with its last written cookie |
| Cookies.NamesDistinct | util/util.go:22-40 | parsed names are never empty and never repeat |
| Cookies.PutReplaces | util/util.go:22-40 | on any header, the cookie lands at the first line of its name, and no other line changes |
| Cookies.LatestOnly | util/util.go:22-40 | writing a name again leaves exactly one line of it, the latest |
| Cookies.NameExactly | util/util.go:43-53 | the name of any text: what stands before the first `=`, trimmed, when a semicolon follows later and none comes before; none otherwise |
| Session.Store.constructor | session/store.go:27-46 | a new store has TTL 30 days, cookie name `session`, secure cookies |
| Session.Store.SetStorage | session/store.go:42-50 | defaults fill only empty settings |
| Session.Store.LoadHTTP | session/store.go:67-73 | always a fresh session, holding stored values exactly when the cookie has a valid id that storage answers |
| Session.Session.Set | session/session.go:27-41 | stores or deletes and marks dirty, except that deleting on a nil map does nothing |
| Session.Session.Get | session/session.go:43-48 | the cached value, if any |
| Session.Session.Del | session/session.go:50-57 | deletes and marks dirty exactly when the key is present |
| Session.Session.Clear | session/session.go:62-67 | drops all values and marks dirty exactly when there are any |
| Session.Session.LoadHTTP | session/session.go:69-79 | loads only a cookie whose value is a valid id |
| Session.Session.Load | session/session.go:139-151 | takes id and values on success only; on error the id is empty and old values stay |
| Session.Session.Save | session/session.go:157-184 | stores, deletes or refreshes; dirty is cleared exactly when no error is returned |
| Session.Session.BakeSessionIDCookie | session/session.go:109-135 | name, id, Max-Age (truncated TTL seconds, or -1 when empty) and flags of the cookie |
| Session.Session.SaveHTTP | session/session.go:91-105 | saves first, then sets the cookie unless the save failed or there was nothing to say |
| Session.IsValidSessionID | session/session.go:198-211 | four to maxLen characters, all of them alphanumeric, dash or underscore |
| SessionRuns.LoadedInSync | session/session.go:139-151 | a session made for a request is in sync with storage and holds what a live entry held, or is empty without id |
| SessionRuns.WriteBack | session/session.go:27-67 | over any run of Set, Del, Clear, Save and foreign storage activity, the contents are the initial map with the operations applied, and a session that is not dirty equals what storage holds |
| SessionRuns.SaveThenLoad | session/session.go:139-184 | after any run and a successful Save, a fresh Load of the id gives exactly the resulting map within the TTL and an expiry error after it; an emptied session's old id no longer loads |
| SessionRuns.SaveFailsExactly | session/session.go:157-184 | a Save fails exactly when gob cannot encode pending values or an unchanged session has lost its entry, and then changes nothing |
| SessionRuns.LoadFailsExactly | session/session.go:139-151 | a Load fails exactly when storage or gob does, then the id is empty and the old values stay |
| SessionRuns.SaveTouchesOwnEntry | session/session.go:157-184 | a Save leaves every other session's entry alone |
| SessionRuns.SaveKeepsSync | session/session.go:164-178 | Save keeps the session in sync unless it needed a new id and uuid.Gen gave none, exactly; then it still reports success |
| SessionRuns.CookieAgrees | session/session.go:91-135 | a successful SaveHTTP writes the current id with Max-Age the TTL in seconds exactly when storage holds a live entry with these values, else -1 with empty id; when it writes none, the session is empty and nothing changed |
| SessionRuns.CookieNameExact | session/session.go:121-125 | the cookie line parses back to the configured name exactly when that name is trimmed and has no `=` or `;` |
| SessionRuns.OneSessionCookie | session/session.go:91-105 | repeated saves leave exactly one session cookie in the header, the latest |
| SessionRuns.CookieValueIsID | session/session.go:121-125 | the value a client sends back is the session's id |
| SessionRuns.RenderReadsBack | session/session.go:109-135 | the attributes of the cookie line, read back: id under the name, Path, Max-Age in decimal, HttpOnly, SameSite, and Secure exactly when the cookie is |
| SessionRuns.SecureExactly | session/session.go:128-132 | a session's line says Secure exactly when its store does not allow insecure cookies |
| SessionRuns.MaxAgeIsWholeSeconds | session/session.go:116-119 | Max-Age counts the whole seconds of the TTL, truncated toward zero, or is -1 for an empty session |
| SessionRuns.ValidIDsFitCookies | session/session.go:198-211 | valid ids consist of characters that a cookie's value may hold; alphanumeric text of an admitted length is valid |
| SessionRuns.SavedCookieLeadsBack | session/session.go:69-184 | the only session cookie in the header leads, through LoadHTTP, to the session with exactly the saved values, exactly within the TTL and when its id is a valid one |
| SessionRuns.NextRequest | session/session.go:27-211 | any run, SaveHTTP, cookie sent back, LoadHTTP: the next request sees exactly the initial values with the run applied, exactly within the TTL and when the session's id is a valid one |
| Transaction.Transaction.constructor | transaction.go:66-75 | a new transaction has status 200 and nothing written |
| Transaction.Transaction.SetCookie | transaction.go:182-184 | changes only the Set-Cookie lines |
| Transaction.Transaction.WriteHeader | transaction.go:186-196 | does nothing after the first time; the first time saves a loaded session, then sends |
| Transaction.Transaction.Write | transaction.go:198-201 | sends the header with the current status first, then the body |
| Transaction.Transaction.Flush | transaction.go:215-222 | sends the header first, then flushes if the writer can |
| Transaction.Transaction.RespondWithMessage | transaction.go:279-289 | sets the status, then writes |
| Transaction.Transaction.GetSession | transaction.go:459-465 | loads the request's session the first time only |
| Transaction.Transaction.SaveSession | transaction.go:467-473 | saves a loaded session only |
| Transaction.Transaction.ClearSession | transaction.go:475-483 | clears and saves the session, loading it if need be |
| Transaction.SendOnce | transaction.go:186-222 | over every run on a new transaction the header goes out exactly when something asks for it, once, with the status of the first that does, before any body or flush, and right after the save of a loaded session |
| Transaction.RunKeepsGood | transaction.go:186-222 | over every fair run the session stays in sync with storage and the header names every cookie once |
| Transaction.SentHeaderLeadsBack | transaction.go:186-196 | the header that goes out after any run carries exactly one session cookie, which leads through LoadHTTP to exactly the session's values, exactly within the TTL and when the session's id is a valid one |
| Transaction.BodyIsWhatWasWritten | transaction.go:198-222 | over any run, what follows the header is exactly the data of Write and RespondWithMessage and the flushes, in order |
| Requests.SessionOfRequest | transaction.go:459-465 | on a new transaction, Session() is exactly the stored session that the request's cookie names when that is valid and live, and an empty session without id for any other cookie |
| Requests.SessionOnce | transaction.go:459-465 | asked again, it is the session already loaded |
| Requests.NextTransactionSees | transaction.go:186-222 | after any fair run whose header is sent, a second transaction made with the sent session cookie finds through its own Session() exactly the first one's values, exactly within the TTL and when the id is valid |
| Requests.SavedSessionHandsOver | transaction.go:467-473 | so it does after SaveSession at any time, with the lines of that moment |
| Requests.ClearedIsForgotten | transaction.go:475-483 | ClearSession leaves an empty session without id, deletes its entry, tells the client to forget the cookie, and the old id gets the next transaction an empty session |
| Requests.CookieIsSet | transaction.go:182-184 | SetCookie leaves exactly one line of that name, this one, keeps the lines of other names and changes nothing else |
| Varint.PutUvarint | auth/auth.go:101-105 | writes the encoding at the offset, or runs past the end exactly when it does not fit |
| Varint.ReadUvarint | auth/auth.go:118-126 | value and count of the first varint, (0, 0) on a short buffer, (0, -n) on overflow at byte n |
| Varint.UvarintRoundTrip | auth/auth.go:101-126 | every 64-bit value is read back with its length, whatever follows |
| Varint.Leb128Format | auth/auth.go:101-105 | the bytes stand for the value seven bits at a time, least significant first, exactly the last has its high bit clear, and none is wasted |
| Varint.ShortUvarint | auth/auth.go:118-126 | an encoding that is cut short reads as (0, 0) |
| Varint.OverflowReads | auth/auth.go:118-126 | the encoding of a value past 64 bits reads as an overflow at its last byte |
| Varint.VarintLength | auth/auth.go:98 | an encoding has at most k bytes exactly when the value is below 128 to the k |
| Varint.PrefixFree | auth/auth.go:101-126 | no encoding is a proper prefix of another |
| Base64.Encode | auth/auth.go:80-81 | the 3-to-4 loop and its tail write exactly the encoded text |
| Base64.Decode | auth/auth.go:88-89 | succeeds exactly on base64 text apart from line breaks, writes its bytes, and leaves the rest of the buffer alone, always in bounds |
| Base64.DecodeEncoded | auth/auth.go:78-94 | decoding gives back what was encoded, with tails of no, one and two bytes |
| Base64.EncodedLength | auth/auth.go:80 | the text has exactly EncodedLen characters |
| Base64.DecodedLenOfEncodedLen | auth/auth.go:80-88 | the decode buffer for encoded text is exactly as long as what was encoded |
| Base64.AlphabetInOrder | auth/auth.go:80-81 | the digits are the RFC 4648 alphabet in order |
| Base64.DecodedExact | auth/auth.go:87-91 | text without line breaks decodes exactly when its characters are of the alphabet and its length is possible, and encoding the bytes again gives the text but for the unused bits of its last character |
| Base64.LineBreaksSkipped | auth/auth.go:88-91 | CR, LF or both are skipped anywhere; any other character counts |
| Auth.EncodeRaw | auth/auth.go:97-112 | yields header plus salt plus hash, exactly when the five varints take at most 25 bytes; otherwise a slice bound panics |
| Auth.SmallValuesFit | auth/auth.go:98 | values below 2^35 always fit |
| Auth.FitsExactly | auth/auth.go:98 | a record fits exactly when its five varints take at most 25 bytes together |
| Auth.DecodeRaw | auth/auth.go:115-140 | reads five varints and two strings, with the panics and the single check that the code has |
| Auth.RawRoundTrip | auth/auth.go:97-140 | reading a record gives back N, R, P, salt, hash and their lengths without error, whatever bytes follow |
| Auth.RecordsPrefixFree | auth/auth.go:97-112 | no record is a proper prefix of another, and equal records have equal contents |
| Auth.TruncatedNeverReads | auth/auth.go:115-140 | a record cut short anywhere is never read as one: the code panics or reports the header |
| Auth.Encode | auth/auth.go:78-83 | the base64 text of the record, when the record fits its buffer |
| Auth.Decode | auth/auth.go:87-94 | the record read from the decoded buffer, zero bytes at its end included |
| Auth.CodecRoundTrip | auth/auth.go:78-140 | any text that equals the encoded one apart from line breaks decodes to the same parameters, salt and hash, with their lengths and without error |
| Auth.CodecRoundTripUnbroken | auth/auth.go:78-140 | so does the text itself, which is never empty |
| Passwords.Passwords.Set | auth/passwords.go:32-46 | stores the record of the derived key, or reports the first failure and stores nothing |
| Passwords.Passwords.Verify | auth/passwords.go:50-63 | checks the password against the stored record with default parameters |
| Passwords.Passwords.Change | auth/passwords.go:69-75 | sets only when the current password verifies |
| Passwords.RunInStep | auth/passwords.go:32-75 | after any run every account with data holds the record of its last successfully set password and salt, and no other account has data |
| Passwords.AnswersAfterRun | auth/passwords.go:32-75 | every Set and Change of a run answers exactly what the passwords last set before it demand: which error, or success |
| Passwords.VerifyAfterRun | auth/passwords.go:50-63 | after any run, Verify succeeds exactly when the account was set and scrypt gives the password, under 32768, 8, 1 and 32, the key it gave the password last set under the configuration's parameters; every other answer is stated too, and a set account is never reported invalid |
| Passwords.AgreeingConfigVerifies | auth/auth.go:55-68 | with a configuration that agrees with the default the password last set verifies; for a scrypt without collisions nothing else ever does, and under another configuration nothing at all |
| Passwords.SaltsSeparateRecords | auth/passwords.go:32-46 | for a scrypt without collisions two records hold the same key exactly when password and salt are the same |
| Passwords.VerifiesExactlyWhenAgreeing | auth/auth.go:60-68 | over all scrypts that keep lengths, stores, accounts and passwords, Verify succeeds right after a successful Set exactly when the configuration agrees with the default in N, R, P and HashLen, or no record under it fits its buffer |
| Passwords.OtherHashLengthNeverVerifies | auth/auth.go:60-68 | with another hash length no password verifies after any run |
| Passwords.ChangeGuarded | auth/passwords.go:69-75 | a Change with a failing current password, like any failing call, alters nothing, and other accounts are never touched |
| Passwords.SmallConfigNeverPanics | auth/auth.go:97-112 | parameters and lengths below 2^35 never overrun the record buffer |
| Shutdown.ExecKeepsInv | server.go:372-458 | mutual exclusion, list and channel, goroutine, registration and wait group invariants in every reachable state |
| Shutdown.ShutdownSafety | server.go:392-458 | in every interleaving and epoch nil or a closed channel is never closed; with the mutex free the channel is nil exactly when the list is empty, and a set channel has exactly one unfinished goroutine |
| Shutdown.ClosedAfterAllStopped | server.go:445-455 | a channel is closed only after every server registered under it has finished Close or Shutdown |
| Shutdown.ReturnedChanCoversServer | server.go:392-411 | the channel returned to a caller is one its server is registered under, so when it is closed that server has stopped |
| Shutdown.EnableReturnsChannel | server.go:392-411 | a caller at the end of EnableGracefulShutdown always has a channel, returns it and lets go of the mutex |
| ShutdownTimeouts.TimeoutTracked | server.go:392-415 | in every interleaving the timeout field is the one last given by an effective Enable, or zero after a later Disable |
| ShutdownTimeouts.StoppedAsTold | server.go:426-443 | in every interleaving a server is stopped by Shutdown with exactly the timeout last given to it when its worker read it, and by Close exactly when that was zero |
| ShutdownTimeouts.ReadOnce | server.go:426-443 | every worker reads its server's timeout once |
| ShutdownTimeouts.StoppedExactly | server.go:430-438 | a server counts as stopped exactly when its Close or Shutdown has returned |
| Shutdown.ClosedForGood | server.go:454-457 | a closed channel stays closed and gets no further servers |
| Shutdown.OneInside | server.go:397-422 | never two callers, or a caller and a shutdown, between lock and unlock |
| Shutdown.FinishKeepsComplete | server.go:454-455 | closing the channel happens only when the wait group has counted down to zero, with one finished worker per server of the list, so every server registered has stopped |
| Shutdown.Complete | server.go:420-458 | a shutdown that holds the mutex can always run to its end |
| Shutdown.CanAlwaysClose | server.go:392-458 | from every reachable state, every channel with a goroutine can still be closed: no deadlock |
| CleanPath.CleanPathOf | server.go:137-156 | both branches of the trailing slash give the canonical path |
| CleanPath.CanonicalFixed | server.go:89 | canonicalisation changes nothing exactly on canonical paths: the root, or names after slashes with an optional final slash |
| CleanPath.CanonicalIsCanonical | server.go:137-156 | the result has no empty, `.` or `..` part |
| CleanPath.Idempotent | server.go:137-156 | canonicalising twice is canonicalising once |
| CleanPath.CanonicalShape | server.go:145-154 | starts with a slash; ends with one exactly when the input does, is empty or cleans to the root; both branches equal appending it |
| CleanPath.CanonicalRules | server.go:136-156 | empty parts and `.` disappear, `..` disappears with the name before it or alone at the root, a missing slash is put in front, and canonical paths stay |
| CleanPath.OnlyCanonical | server.go:136-156 | these rules determine the result for every path: any function that follows them is canonicalisation |
| CleanPath.Canonicalize | server.go:83-93 | redirects exactly when the method is not CONNECT and the path is not canonical |
| CleanPath.FollowRedirect | server.go:83-93 | following a redirect, with any method, never leads to another |

## Left out

- General regular expressions inside `{name:pattern}`: a variable's own pattern stands for one or more characters of a class, looked up in an arbitrary table; capture groups inside it are not modelled.
- RouteWritten.SubstituteRoundTrip: written patterns have no opening brace in their text, and need the final `!` when the text ends in `!` or white space; RouteRoundTrip.PatternRoundTrip has none of these limits.
- Route.String and the router of the main package: printing and wiring.
- Pointers to routes returned by Add before the slice is reallocated: routes are objects that stay in place.
- Storage back ends other than the in-memory one, whose Set and Del cannot fail; a store without storage.
- Invalid UTF-8 in patterns and paths: characters are not split into bytes.
- Time arithmetic that leaves the range of time.Time.
- The uuid format: uuid.StringMaxLen is a parameter.
- Header fields other than Set-Cookie, errors of the underlying ResponseWriter, logging.
- The pool of free transactions and its finalizers: every transaction starts new.
- Base64.Decode: the library's shortcut for whole words of valid characters is not modelled; it gives the same bytes.
- Auth.DecodeRaw: what the code makes of bytes that are neither a record nor the beginning of one is modelled but not characterised further; slices are taken to have no spare capacity.
- Timing of the constant-time comparison, scrypt itself, the randomness of salts.
- Shutdown: EnableGracefulShutdown with a zero timeout panics before touching anything and is a step without effect; what http.Server does inside Close and Shutdown is one step each.
- URL escaping between the redirect and the next request, CONNECT and `*` requests beyond the branch, gotalk sockets, listeners, file serving, templates and status helpers.
