# gocurl: a verified model

gocurl is a command-line HTTP client. Most of it drives network libraries; what it computes on
its own is modelled here and proved for all inputs and all runs.

| file | models | main results |
|---|---|---|
| `DataArgs.dfy`, `FormEncoding.dfy` | the `-d`, `--data` and `--data-urlencode` scanner and the form body | scanner inverts printer; the form round trip, with its exact condition |
| `DataReport.dfy` | the scanner beside the flag library's own reading | exactly when the body carries the entries as the library reads them |
| `UrlArgs.dfy` | `collectURLs`, which finds the URLs by rescanning the arguments and counting | exact counting |
| `UrlOrder.dfy` | its promise of command-line order | exactly when the result is in the order written |
| `SplitTls.dfy` | the connection that cuts a ClientHello in two | invisible on the wire over every run; five splits at most; exact panic condition |
| `TlsRandom.dfy` | the reader that hands out fixed bytes, then entropy | refines a stream; how reads are cut is irrelevant |
| `Overrides.dfy` | `--connect-to`, `--resolve`, `--experiment`, `--tls-split-hello` | maps refine option lists; parsers invert printers |
| `Headers.dfy` | `--header` and the headers of a request | independent of the map's iteration order; exact defaults and upgrades |
| `Resolver.dfy` | host lookup, ECH lookup and the direct dialer | exact fallback; the address dialled, exactly; no index out of bounds; exact errors |
| `DialChain.dfy` | redirect, proxy and splitter stacked as dial functions | they compose; nothing leaks |
| `GoStrings.dfy`, `Seqs.dfy` | package strings; lists, loops with errors | splitting inverts joining |

`dafny verify dfyconfig.toml` checks all of it.

## How the program is modelled

- A Go string is a sequence of bytes (`GoString`); `strings.SplitN`, `Split`, `Join`, `Index` and
  `HasPrefix`, `url.QueryEscape`, `strconv.Atoi`, `net.IP.To4` and the header canonicalisation of
  net/http are written out from their definitions.
- Code that loops or changes state is a method of the same shape, proved equal to a function on
  values. The theorems are about those functions. They compare them with something defined on its
  own: a printer of command lines, a form reader, a byte stream, a list of options.
- The outside world is an oracle: files, the flag library's report, the base connection, the
  entropy source, DNS upstreams, `net.ParseIP`, the decoder of ECH blobs. Each may answer in any
  way its Go interface allows, errors included. Base writes, pauses and DNS queries go to
  append-only logs.
- Where Go would panic, the outcome says so, and a lemma says exactly when.

## Where the code and its documentation differ

The model follows the code. Each difference is a lemma.

- `--data-urlencode` names are sent unescaped. A reader gets the name back exactly when it has no
  `&`, no `+` and no `%` with two hexadecimal digits behind it (`FormRoundTrip`); an ampersand
  makes two fields of one argument (`AmpersandInNameSplits`).
- The data scanner and the flag library read some arguments differently. The scanner does not see
  an option at the end of a cluster (`-vd v`), keeps the equals sign of `-d=v` and keeps the
  quotes of a quoted value. The entries are those the library reads if and only if the scanner
  sees no entry at all, or every entry is written in one of the scanner's six ways with a value
  that is not quoted (`EntriesAsMeantIff`). `ClusterIsMissed`, `EqualsSignIsKept` and
  `QuotesAreKept` are inputs on which they are not.
- URLs keep command-line order if and only if no word of another option has the text of an
  argument behind the terminator, and no URL is overtaken (`OrderPreserved`). One is overtaken when
  a word of another option is counted in place of a later URL with another text, before anything
  is counted in place of the earlier one; occurrences on the command line decide that. It is
  enough that no word of another option has the text of a later positional argument or of an
  argument behind the terminator (`NoEarlyTwinSuffices`), but not necessary
  (`EarlyTwinCanBeHarmless`). `OrderCanChange` and `TwinBehindIsAdded` are inputs that break the
  promise, one without a terminator and one with.
- The comment on `splitDone` says that splitting stops after the first ClientHello. The field is
  never set, so up to five Writes split (`SplitsOnceIff`, `SplitsMoreThanOnce`).
- A failed split reports a count that may be too low, because the partial count of the failing
  base write is dropped. The count can be relied on, whatever the base connection does, exactly
  when the Write does not split or panics (`CountIsExactIff`); `PartialCountIsLost` is an input.
- `--connect-to` cannot redirect an address whose host is an IPv6 literal, although it can
  redirect to one: no list of options does (`NoRedirectOfIPv6`, `ConnectToOptionMeaning`;
  `IPv6SubjectIsMisread` is an input).
- The help text of `--resolve` allows a leading `+`; it becomes part of the host (`PlusStaysInHost`).
- A comment promises the default User-Agent only where the user set none. It also replaces one that
  the user sets to empty text (`EmptyAgentIsReplaced`; `RequestRefinesOptions` has the condition).
- `LookupECHConfigs` promises `ErrEmptyResponse` when nothing is found. It keeps the promise
  exactly when some upstream replied with success (`EmptyResponseExactly`).

## Model

| member | source | states |
|---|---|---|
| DataArgs.ParseDataEntries | internal/config/data.go:53-80 | the loop with its skipped-ahead index computes the scan that the next lemmas characterise |
| DataArgs.ScannerInvertsPrinter | internal/config/data.go:53-80 | for entries in any accepted spelling, among any neutral arguments and before any tail (a terminator with anything behind it, or an option lacking its value), exactly the printed entries come back, even when a value looks like an option |
| DataArgs.EveryArgvIsPrinted | internal/config/data.go:53-80 | every argument list is such a printing, so the scanner is decided on all inputs |
| DataArgs.ScanIsCompositional | internal/config/data.go:54-79 | the scan of a list is the scan of its two halves at every index where an iteration starts |
| DataArgs.ScanStopsAtTerminator | internal/config/data.go:56-58 | nothing behind a terminator that is not itself a value contributes an entry |
| DataArgs.ProcessData | internal/config/data.go:19-49 | the body is built from the scanned entries or, if there are none, from the reported ones; the first unreadable file is the error |
| DataReport.EntriesAsMeantIff | internal/config/data.go:19-80 | the entries of the body are those the flag library reads, in command-line order, if and only if the scanner sees no entry or every entry is in one of its six spellings with an unquoted value; the same condition decides it with order left aside |
| DataReport.ClusterIsMissed | internal/config/data.go:20-28 | `-vd a -d b` sends only `b` |
| DataReport.EqualsSignIsKept | internal/config/data.go:65-66 | `-d=v` sends `=v` where the library reads `v` |
| DataReport.QuotesAreKept | internal/config/data.go:60-64 | a quoted value is sent as written where the library unquotes it |
| DataArgs.FirstFailureWins | internal/config/data.go:34-48 | a body exists exactly when every entry has a part; otherwise the error is that of the first entry without one |
| DataArgs.BodyExistsIff | internal/config/data.go:19-142 | a body is built if and only if every file that an entry names, behind the `@` of `-d` or in one of the two file forms of `--data-urlencode`, is readable |
| DataArgs.FirstUnreadableIsTheError | internal/config/data.go:34-46 | otherwise the error is the first unreadable file in command-line order |
| DataArgs.FallbackBody | internal/config/data.go:20-48 | without scanned entries the body is the reported `-d` values, verbatim unless they name files, followed by the parts of the reported `--data-urlencode` arguments |
| DataArgs.RawDataMeaning | internal/config/data.go:128-142 | `-d` sends its value verbatim, or the file without its line breaks and without any other change; a file that cannot be read is the error |
| DataArgs.EncodeForm | internal/config/data.go:88-124 | each of the five argument forms gives its name as it is and its bytes escaped, or the name of the unreadable file |
| DataArgs.EveryStringIsAnArg | internal/config/data.go:88-124 | every string is one of the five forms |
| DataArgs.PartDecodes | internal/config/data.go:88-124 | a part is one piece of the body exactly when the name has no ampersand, and decodes to the field asked for exactly when the name is literal |
| DataArgs.FormRoundTrip | internal/config/data.go:19-49 | splitting the body at ampersands and form-decoding the pieces gives the names and bytes asked for, one per argument and in order, if and only if every name is free of ampersands and literal |
| DataArgs.StandardRoundTrip | internal/config/data.go:19-49 | the name-value list that the standard's parser reads from the body is that of the names and bytes asked for, under the same condition and only then |
| DataArgs.AmpersandInNameSplits | internal/config/data.go:105-121 | a literal name with an ampersand comes back as two fields |
| DataArgs.CommandLineRoundTrip | internal/config/data.go:19-124 | the same condition from the raw argument list, for the fields and for the name-value list of the parser in section 5.1 of the WHATWG URL Standard |
| DataArgs.MixedBody | internal/config/data.go:34-48 | among `-d` entries, each entry contributes the fields of its own part, in order, and a safe `--data-urlencode` entry exactly one |
| FormEncoding.DecodeEscaped | internal/config/data.go:95-123 | form-decoding undoes url.QueryEscape on every byte string |
| FormEncoding.EscapeTable | internal/config/data.go:95-123 | which bytes stay as they are, that a space becomes a plus sign, and the two upper-case digits of every other byte |
| FormEncoding.EscapeAppend | internal/config/data.go:95-123 | bytes are escaped one by one, in order |
| FormEncoding.EscapedAlphabet | internal/config/data.go:95-123 | escaped bytes never contain a delimiter of the form |
| FormEncoding.DecodeLiteral | internal/config/data.go:105-121 | unescaped text reads back as itself exactly when it has no plus sign and no percent escape |
| FormEncoding.StandardParserSeesFields | internal/config/data.go:48 | the standard's parser sees every field but the bare empty ones |
| FormEncoding.FieldsOfJoin | internal/config/data.go:48 | joining parts with an ampersand concatenates their fields |
| UrlArgs.CollectURLs | internal/config/options.go:165-200 | the loop with its counter map computes the scan over a multiset, no counter negative, then the fallback |
| UrlArgs.ScanPicksEarliest | internal/config/options.go:171-192 | the scan takes every `--url` value, each other word at its earliest eligible occurrences while fewer occurred before than its count, and verbatim all behind a terminator |
| UrlArgs.EveryArgvIsPrinted | internal/config/options.go:171-192 | every argument list has the token form of that lemma |
| UrlArgs.PicksAreExact | internal/config/options.go:166-190 | counter and picks always add up to the initial count, and a word is picked as often as the smaller of its count and its eligible occurrences |
| UrlOrder.PicksPositionalsIff | internal/config/options.go:187-190 | with the counts the flag library leaves, the words picked are the positional arguments themselves if and only if no word of another option has the text of a later positional or of an argument behind the terminator |
| UrlOrder.OrderPreserved | internal/config/options.go:163-200 | the result is the URL values and positional arguments in the order written, then all behind the terminator, if and only if no word of another option has the text of an argument behind the terminator and none of them is overtaken, which the numbers of equal URLs and words before each token decide; if there are no such URLs and no terminator, it is the flag library's lists |
| UrlOrder.NoEarlyTwinSuffices | internal/config/options.go:163-200 | it is enough that no word of another option has the text of a later positional or of an argument behind the terminator |
| UrlOrder.EarlyTwinCanBeHarmless | internal/config/options.go:187-190 | for `-o u u` the wrong occurrence is picked and the result is still right |
| UrlOrder.OrderCanChange | internal/config/options.go:163-200 | an input on which two URLs change places |
| UrlOrder.TwinBehindIsAdded | internal/config/options.go:176-181 | `-o u -- u` requests u twice |
| SplitTls.SplitTLSConn.Write | internal/client/splittls/splittls.go:99-128 | outcome, trace and counter of a Write are those of the functions the next lemmas speak of |
| SplitTls.RecordDecides | internal/client/splittls/splittls.go:74-128 | for every record and every base connection: a handshake record of major version 3 with a client_hello among the first five Writes is cut at the chunk size, or panics where it is shorter; every other one is passed on as it is, with the base connection's answer |
| SplitTls.TwoWritesIff | internal/client/splittls/splittls.go:74-125 | over a base connection that takes everything there are two base writes exactly for such a record, with a pause of the configured length between them if one is set, and one base write of the whole buffer otherwise |
| SplitTls.ShortBufferIsPassedOn | internal/client/splittls/splittls.go:75-77 | a buffer of fewer than six bytes is passed on as it is |
| SplitTls.EveryBufferIsARecord | internal/client/splittls/splittls.go:80-92 | every other buffer is covered by the two rows before |
| SplitTls.ErrorIsOfTheLastWrite | internal/client/splittls/splittls.go:110-127 | a Write returns the error of its last base write and makes none after one that failed |
| SplitTls.WriteDelivers | internal/client/splittls/splittls.go:99-128 | for every base connection, a Write puts a prefix of its buffer on the wire, all of it and fully counted on success, never less than reported on failure, and exactly what is reported unless a split drops a partial count |
| SplitTls.CountIsExactIff | internal/client/splittls/splittls.go:99-128 | over all base connections, what a Write reports is what it put on the wire, if and only if it is not among the first five with a ClientHello, or is too short for the first chunk and panics |
| SplitTls.PartialCountIsLost | internal/client/splittls/splittls.go:110-122 | an input on which the second chunk fails after a byte was sent and the reported count is too low |
| SplitTls.CompletedSplit | internal/client/splittls/splittls.go:105-122 | a completed split is two base writes, of the first k bytes and of the rest, with one pause of the configured length between them exactly when a delay is set |
| SplitTls.RunDelivers | internal/client/splittls/splittls.go:99-128 | over every run the wire grows by the deliveries of the Writes, in order and with nothing else |
| SplitTls.SuccessfulRunIsTransparent | internal/client/splittls/splittls.go:99-128 | if all Writes succeed, the wire grows by the concatenation of their buffers and each reports its full length |
| SplitTls.RunBounds | internal/client/splittls/splittls.go:74-125 | at most five Writes of a connection split, and each adds at most one base write and one pause |
| SplitTls.SuccessfulRunCounts | internal/client/splittls/splittls.go:74-125 | if all Writes succeed these counts are exact |
| SplitTls.WithoutSplitsDirect | internal/client/splittls/splittls.go:127 | a run without splits makes the same base writes and gives the same answers as the base connection |
| SplitTls.FromTheSixthDirect | internal/client/splittls/splittls.go:75-77 | from the sixth Write on, every run is such a run |
| SplitTls.PanicsExactly | internal/client/splittls/splittls.go:105-108 | a run panics if and only if some Write that splits is shorter than the first chunk |
| SplitTls.SplitsOnceIff | internal/client/splittls/splittls.go:63-77 | at most one Write splits if and only if the first five hold at most one ClientHello |
| SplitTls.SplitsMoreThanOnce | internal/client/splittls/splittls.go:63-77 | two ClientHellos both split, and the bound of five is reached |
| TlsRandom.TlsRandomReader.Read | internal/client/clientdialer.go:183-202 | the buffer, the count, the error, the position and the use of entropy are those of one step; the data is unchanged |
| TlsRandom.ReadAdvances | internal/client/clientdialer.go:183-202 | a Read hands out the next bytes of the data followed by entropy, all that was asked for unless it fails |
| TlsRandom.FailureKeepsData | internal/client/clientdialer.go:191-195 | on an entropy failure the data bytes already copied are counted and correct |
| TlsRandom.RunReadsStream | internal/client/clientdialer.go:173-202 | over every sequence of Reads, failures included, the concatenated output is the next piece of that stream |
| TlsRandom.RunStaysCoherent | internal/client/clientdialer.go:173-202 | over every run entropy is used only once the data is handed out, and position plus entropy used is what was handed out |
| TlsRandom.RunPosition | internal/client/clientdialer.go:184-190 | the position is always the smaller of the data's length and the bytes asked for |
| TlsRandom.ChunkingIsIrrelevant | internal/client/clientdialer.go:183-202 | over a source that does not fail, two sequences of sizes with the same total give the same bytes and the same position |
| Overrides.ParseConnectTo | internal/config/config.go:362-376 | the map loop computes the last-assignment map of the options, or returns the first malformed one |
| Overrides.ConnectToRefinesOptions | internal/config/config.go:362-376 | a map exists exactly when every option has three colons; looking up an address gives the target of the last option that names it |
| Overrides.FirstMalformedIsReported | internal/config/config.go:365-368 | a refused list is refused for its first option with fewer than three colons |
| Overrides.ConnectToOptionMeaning | internal/config/config.go:365-372 | HOST1:PORT1:HOST2:PORT2 redirects HOST1:PORT1 to HOST2:PORT2 if and only if HOST1 and PORT1 hold no colon |
| Overrides.NoRedirectOfIPv6 | internal/config/config.go:362-376 | no option list redirects an address that does not have exactly one colon |
| Overrides.IPv6SubjectIsMisread | internal/config/config.go:365-372 | `[::1]:443:...` redirects `[:` instead, for every target |
| Overrides.ParseResolve | internal/config/config.go:379-414 | the nested loops compute the last-assignment map of the options, or return the first error |
| Overrides.ResolveAcceptedExactly | internal/config/config.go:382-410 | the list is accepted exactly when every option has two colons and every address behind them parses |
| Overrides.ResolveOptionAccepted | internal/config/config.go:383-404 | an accepted option has one address for each piece of its list, in order, in 4-byte form where it is IPv4 |
| Overrides.TrimUnmaps | internal/config/config.go:398-401 | trimming takes an IPv4-mapped IPv6 address to its last four bytes and leaves every other address alone |
| Overrides.ResolveRefinesOptions | internal/config/config.go:379-414 | looking up a host gives the addresses of the last option for it, never an empty list and never an IPv4 address in 16 bytes |
| Overrides.ResolveOptionMeaning | internal/config/config.go:383-392 | host:port:addresses is cut back into these fields exactly when host and port hold no colon; IPv6 addresses keep theirs |
| Overrides.ResolveOptionReads | internal/config/config.go:383-404 | host, dropped port and addresses of an option are the texts around its first two colons; it is accepted exactly when every piece of the last parses |
| Overrides.ResolveOptionRefused | internal/config/config.go:384-396 | an option is refused for its format, or else for its first address that does not parse |
| Overrides.FirstRefusedIsReported | internal/config/config.go:382-396 | a list is refused for its first refused option |
| Overrides.PlusStaysInHost | internal/config/config.go:383-410 | a leading plus sign is kept in the host |
| Overrides.ParseExperiments | internal/config/config.go:487-508 | the loop computes the last-assignment map, or returns the first unknown experiment |
| Overrides.LastExperimentWins | internal/config/config.go:487-508 | in an accepted list the last option sets the value of the one experiment |
| Overrides.ExperimentOptionMeaning | internal/config/config.go:491-504 | the value is all behind the first colon and empty without one; exactly `pq` and options that begin with `pq:` are accepted |
| Overrides.FirstUnknownIsReported | internal/config/config.go:498-502 | a refused list is refused for its first option that names another experiment |
| Overrides.TLSSplitHelloRoundTrip | internal/config/config.go:455-472 | a printed pair of numbers parses back to itself exactly when both fit in 64 bits |
| Overrides.TLSSplitHelloAccepts | internal/config/config.go:455-472 | a text is accepted, with these values, exactly when the parts around its first colon are these numbers: an optional sign and decimal digits, within 64 bits; the error names the first part that is none |
| Overrides.LeadingZero | internal/config/config.go:461-469 | leading zeros do not change a number |
| Headers.CreateHeaders | internal/config/config.go:436-452 | the loop adds the options one by one |
| Headers.HeaderOptionMeaning | internal/config/config.go:440-448 | the name ends at the first colon, the value is all behind it, and is empty without a colon |
| Headers.HeadersRefineOptions | internal/config/config.go:436-452 | every canonical name carries exactly its options' values in order; no other name is present |
| Headers.CanonicalIgnoresCase | internal/config/config.go:448 | two tokens name the same header exactly when they differ in case only |
| Headers.CanonicalCasing | internal/config/config.go:448 | byte by byte: letters of a token are upper case at the start and behind a hyphen and lower case elsewhere; nothing else changes |
| Headers.Request.AddHeaders | internal/client/request.go:69-75 | whatever key the map yields next, the header is that of adding the keys in some order |
| Headers.OrderIsIrrelevant | internal/client/request.go:69-75 | for headers as createHeaders makes them, every iteration order gives the same header |
| Headers.OrderMatters | internal/client/request.go:69-75 | keys that are not canonical would let the order show |
| Headers.Request.AddBodyHeaders | internal/client/request.go:62-66 | every name but Content-Type carries what it did; Content-Type carries the form type for a non-WebSocket request with data whose first value was absent or empty, and what it did otherwise |
| Headers.Request.SetUpgradeHeaders | internal/client/websocket/websocket.go:102-126 | after the call each of the four upgrade names carries its fixed value alone, and every other name what it did before |
| Headers.UpgradedAt | internal/client/websocket/websocket.go:118-123 | an upgrade replaces what four names carry and keeps every other name |
| Headers.NewRequest | internal/client/request.go:15-47 | header of the finished request, the WebSocket upgrade included, for every iteration order; the body is the data, and empty exactly for `ws` and `wss` or without data |
| Headers.RequestRefinesOptions | internal/client/request.go:15-66 | for every scheme: in a request for `ws` or `wss` the four upgrade names carry their fixed values; every other name carries exactly its options' values in order, except that a default replaces them where the first is absent or empty, and the form type is a default for other schemes with data only |
| Headers.EmptyAgentIsReplaced | internal/client/request.go:33-36 | a User-Agent option with an empty value is replaced by the default |
| Resolver.FirstUsable | internal/resolve/resolve.go:199-241 | no upstream before it gives a usable response, and it does |
| Resolver.DnsResolver.DnsLookupAll | internal/resolve/resolve.go:199-213 | the answer of the first usable response, or every error in order; the upstreams asked are the prefix that ends there |
| Resolver.LookupAllExact | internal/resolve/resolve.go:199-241 | from the replies alone: the first upstream that reports success and holds records is answered from, having asked those up to it in order; without one every upstream is asked and the errors tell, in order, what each replied |
| Resolver.DnsResolver.LookupHost | internal/resolve/resolve.go:59-125 | result, errors and queries of a lookup |
| Resolver.HostLookupExact | internal/resolve/resolve.go:80-117 | over DNS a name resolves exactly when for some query type the first usable response holds an address; the result is these responses' addresses, query types in order |
| Resolver.AddressesInOrder | internal/resolve/resolve.go:102-110 | what is found for a type is what the first usable answer yields: the addresses of its A and AAAA records, unchanged and record by record |
| Resolver.HostQueriesExact | internal/resolve/resolve.go:63-95 | nobody is asked for a literal or a configured host; otherwise each wanted type is, A before AAAA |
| Resolver.HostFailureExact | internal/resolve/resolve.go:94-115 | a failed lookup gives the errors of each wanted type without a usable response, in order |
| Resolver.AliasOnlyAnswerStopsFallback | internal/resolve/resolve.go:92-110 | a usable response without addresses keeps later upstreams from being asked |
| Resolver.ResolveOptionsDecide | internal/resolve/resolve.go:180-194 | a configured lookup gives the last option for the very host, else the last for the wildcard, else none |
| Resolver.DialTargetExact | internal/client/dialer/direct.go:33-47 | for every parsed configuration the dialled address is the trimmed literal, else the first of the last `--resolve` option for the host or else for the wildcard, else the first in the first usable response for the first query type that has one; the dial fails exactly when the address is malformed or none of these exists (`DirectDial` computes it) |
| Resolver.DialNeverPanics | internal/client/dialer/direct.go:41-47 | element 0 is out of bounds exactly when the configuration holds an empty list for the host, which no parsed configuration does |
| Resolver.DnsResolver.LookupECHConfigs | internal/resolve/resolve.go:130-176 | the nested loops collect what the decodable blobs give; the upstreams are asked exactly when nothing is configured, up to the first usable response |
| Resolver.EchCollectionExact | internal/resolve/resolve.go:130-175 | configured values are returned as they are; without any there is a result exactly when some upstream gives a usable answer with a blob that yields a configuration, and it is what that answer yields |
| Resolver.EchInOrder | internal/resolve/resolve.go:153-165 | an answer yields its records' configurations, record by record |
| Resolver.EchValuesInOrder | internal/resolve/resolve.go:156-165 | a record yields its values' configurations, value by value |
| Resolver.EchOfOneValue | internal/resolve/resolve.go:157-164 | a value yields exactly what its blob decodes to; other values and records yield nothing |
| Resolver.BadBlobsInOrder | internal/resolve/resolve.go:159-172 | the blobs reported by a fruitless lookup come record by record |
| Resolver.BadBlobValuesInOrder | internal/resolve/resolve.go:159-172 | and value by value |
| Resolver.BadBlobOfOneValue | internal/resolve/resolve.go:159-162 | a blob is reported exactly when it does not decode |
| Resolver.MalformedBlobsAreHarmless | internal/resolve/resolve.go:159-165 | leaving out malformed blobs changes nothing |
| Resolver.BlobsComplete | internal/resolve/resolve.go:153-158 | the blobs are those of the ECH values of the HTTPS records and no others |
| Resolver.EmptyResponseExactly | internal/resolve/resolve.go:127-176 | the error is ErrEmptyResponse exactly when some upstream replied with success |
| Resolver.RefusalIsNotEmptyResponse | internal/resolve/resolve.go:127-176 | an input on which it is not |
| DialChain.CreateDialFunc | internal/client/clientdialer.go:136-169 | the stacked dial functions do what a description without layers says, for every network and address; it fails exactly for an unknown proxy scheme |
| DialChain.ChainComposes | internal/client/clientdialer.go:144-168 | the target is redirected once by the last option that names it, before proxying; without a proxy it is dialled; a SOCKS dial names it; through an HTTP proxy a TCP dial first reaches the proxy, whose own address is never redirected, then CONNECT names the target, and any other network is refused; a splitter with the configured sizes lies around the connection exactly when the chunk size is positive |
| DialChain.DialSucceedsIff | internal/client/clientdialer.go:136-169 | a dial gives a connection if and only if the target, or the SOCKS proxy on its behalf, is reached; or, through an HTTP proxy, the network is TCP, the proxy is reached, TLS is set up for https, the request is written and the status is 200; and which connection it is |
| DialChain.ConnectIsSentIff | internal/client/proxy/http.go:34-91 | the CONNECT is sent exactly when the proxy is reached and, for https, TLS is set up |
| DialChain.ProxyAddress | internal/client/proxy/http.go:123-131 | the dialled text: the proxy's host, in brackets if it has a colon, and its port or 80, 443 or 1080 |
| DialChain.NothingLeaks | internal/client/proxy/http.go:29-113 | every connection that was opened is returned or closed, and only one of the two |
| GoStrings.SplitNInvertsJoin | internal/config/config.go:365-372 | a bounded split inverts joining exactly when all fields but the last are free of the separator |
| GoStrings.SplitNPieces | internal/config/config.go:365-392 | the pieces join back to the text, and only the last can hold the separator |
| GoStrings.SplitInvertsJoin | internal/config/data.go:48 | splitting a joined list gives the parts exactly when none holds the separator |

## Left out

- go-flags: which words are options, values or positional arguments is given by the tokens, and
  unquoting is an oracle that leaves fewer backslashes and quotation marks than it finds;
  `EntriesAsMeantIff` and `OrderPreserved` state what the library then reports. Command lines that
  it refuses, so that the program ends, are not excluded.
- A file named `-`: reading standard input twice gives nothing the second time; the file oracle
  answers the same both times.
- `net.ParseIP`, `net.SplitHostPort`, `IP.String`, `url.Parse`, base64 and the ECH wire format:
  partial functions without a grammar.
- DNS message ids and `dns.Fqdn`: a question is the host name and the type.
- Wall-clock time: a split delay is an event in the trace; dial and handshake timeouts are
  outcomes of the oracle.
- `writeCnt` is unbounded here; 2^63 Writes on one connection would wrap it in Go.
- TLS, ECH and QUIC handshakes, the HTTP/2 and HTTP/3 transports, SOCKS5 messages, OHTTP
  cryptography and WebSocket framing: they live in libraries.
- The User-Agent and Proxy-Authorization headers of a CONNECT request; only the address it names
  is modelled. The three ways in which the TLS setup to an HTTPS proxy can fail are one.
- Flat flag copying, TLS version and cipher choice, the request method, output and logging: each
  is a single branch.
- TlsRandom.TlsRandomReader.Read: the caller's buffer is not the reader's own data slice; what lies behind the
  returned count is left open, as io.Reader allows.
- SplitTls.SplitTLSConn.Write: the other methods of net.Conn, which are passed through by embedding.
- Headers.NewRequest: the URL scheme and method that the WebSocket upgrade rewrites.
