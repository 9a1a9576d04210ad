# Recon pipelines: names, HTTP probes and DNS lookups

This project models the core of a small reconnaissance toolkit. Three
pieces are covered:

- **grimoire** (shared library). Fully qualified domain names are parsed
  from text: a length check, the label grammar, and the optional strict
  label rules. They are displayed by joining labels with dots. `domain()`
  gives the last two labels. The "IP address or FQDN" argument tries an
  address first.
- **http-recon**. Each input line is `"<fqdn> <ip>"`. For each of HTTP and
  HTTPS, the tool decides whether to probe, sends a HEAD request to the
  address with the name as `Host`, and prints the answer. It stores the
  answer in that scheme's table, insert-if-absent. Response headers are
  grouped by name, and every `Set-Cookie` value has its cookie value
  blanked.
- **dns-recon**. Each input line is a name. A name the store already
  knows is skipped unless known names are queried again. Each answer is
  printed and merged into the table, whose address set for a name only
  grows. "No records" stores an empty set. Any other resolver error, and
  any store error, ends the run.

Modules, one per file:

- `Wrappers` (`wrappers.dfy`): `Option` and `Result`.
- `Text` (`text.dfy`): `str::find` and `str::split_once`.
- `Cookies` (`cookies.dfy`): the `cookie` crate's parse and serialise, as
  the anonymiser uses them.
- `Grimoire` (`grimoire.dfy`): `crates/grimoire/src/lib.rs`.
- `HttpHeaders` (`http_headers.dfy`): `AnonymizedHttpHeaders::from`.
- `HttpRecon` (`http_recon.dfy`): the rest of
  `crates/http-recon/src/main.rs` for one target.
- `HttpReconMain` (`http_main.dfy`): the line stream and loop of
  http-recon's `main`.
- `DnsRecon` (`dns_recon.dfy`): `crates/dns-recon/src/main.rs`.

State the source changes in place is modelled as classes:

- `HttpRecon.HttpStore` holds the `http-recon` and `https-recon` tables,
  as maps from the name's text to a row.
- `DnsRecon.DnsStore` holds the `dns-recon` table, as a map from the
  name's text to a row with a set of networks.

Their methods carry `modifies` clauses. The loops of the source are
methods with invariants, each tied to a pure specification function:

- the header grouping loop;
- the address push loop;
- the two `main` loops.

The outside world is passed in as parameters:

- the network, the resolver and the database answers (`LineEnv`,
  `DnsEnv`, `world: nat -> …`);
- the standard library's address parser (`IpParser`).

The `strict-fqdn-validation` cargo feature is a `strict: bool` parameter.

Both tools' configurations also carry a `corrected` switch. Off, the
pipeline follows the code as written: an IPv6 target ends an http-recon run
with a URL error, an unparsable `Set-Cookie` value ends it with a panic,
and dns-recon stores IPv6 answers as /32 networks. On, the pipeline uses the
corrected definitions of "## Findings". Members with
`AsWritten` in their names state what the code as written does where the two differ.
`HttpRecon.Survives` names the targets on which they agree.

## Model

| member | source | states |
|---|---|---|
| Text.SplitOnce | crates/http-recon/src/main.rs:402-403 | `split_once(' ')`: no space means no split; otherwise the line is the text before the first space, the space, and the rest |
| Text.SplitOnceAt | crates/http-recon/src/main.rs:402 | text without the separator, the separator and any rest split back into those two parts |
| Text.SplitOnceKeepsSecond | crates/http-recon/src/main.rs:197 | with two separators in a text, the split leaves the second one in the part after the first |
| Grimoire.Split | crates/grimoire/src/lib.rs:83-84 | `split('.')` gives at least one piece and no piece holds a dot |
| Grimoire.JoinSplit | crates/grimoire/src/lib.rs:83-84 | joining the pieces of `split('.')` with dots gives the input back |
| Grimoire.SplitJoin | crates/grimoire/src/lib.rs:104-108 | splitting a dot-join of dot-free labels gives the labels back |
| Grimoire.JoinAppend | crates/grimoire/src/lib.rs:48 | joining two label lists is joining each and putting a dot between |
| Grimoire.Display | crates/grimoire/src/lib.rs:104-108 | `Display for Fqdn`, the labels joined by dots; it has no contract of its own: `DisplayParses` and `SplitJoin` state that it is the inverse of parsing |
| Grimoire.ReFromSplit | crates/grimoire/src/lib.rs:16 | the recogniser state after a partial label accepts exactly when the remaining pieces are labels |
| Grimoire.FqdnReMatchesLabels | crates/grimoire/src/lib.rs:16 | the regex matches exactly when the split gives two or more labels of 1 to 63 characters from `[a-zA-Z0-9-]` |
| Grimoire.ParseFqdn | crates/grimoire/src/lib.rs:67-101 | empty or over 253 characters is rejected; an accepted name is well formed, its labels are the split of the input, and it displays as the input; a rejection is explained by too few labels, a bad label, or a strict rule |
| Grimoire.DisplayParses | crates/grimoire/src/lib.rs:104-108 | every well-formed name parses back from its display form |
| Grimoire.JoinLacks | crates/grimoire/src/lib.rs:107 | a dot-join adds no character other than dots |
| Grimoire.DisplayLacksSpace | crates/grimoire/src/lib.rs:104-108 | a parsed name displays without a space, so it can be the first field of a line |
| Grimoire.StrictModeShrinks | crates/grimoire/src/lib.rs:87-98 | strict mode accepts a name exactly when lenient mode does and no label breaks a strict rule; both give the same labels |
| Grimoire.Domain | crates/grimoire/src/lib.rs:47-49 | the name is the domain itself when it has two labels; otherwise it is the leading labels, a dot, and the domain |
| Grimoire.DomainIsFqdn | crates/grimoire/src/lib.rs:47-49 | the domain of a well-formed name parses as the name of its last two labels and is no longer than the name |
| Grimoire.ParseIpAddrOrFqdn | crates/grimoire/src/lib.rs:125-133 | accepted exactly when the address parser or the name parser accepts; an address wins when both accept; a name result displays as the input |
| Grimoire.DisplayIpAddrOrFqdn | crates/grimoire/src/lib.rs:136-145 | `Display for IpAddrOrFqdn`: the address text or the name; no contract of its own, `IpAddrOrFqdnRoundTrip` is its partner |
| Grimoire.IpAddrOrFqdnRoundTrip | crates/grimoire/src/lib.rs:120-145 | the displayed form of an address the address parser reads back, or of a well-formed name it does not take, parses back to the same value |
| Cookies.Trim | crates/http-recon/src/main.rs:286-287 | `str::trim`, with white space taken as the Unicode White_Space set of `char::is_whitespace`: the result has no surrounding white space, holds no character the input lacks, and is the input when there was none |
| Cookies.TrimEmpty | crates/http-recon/src/main.rs:286-287 | trimming leaves nothing exactly when the text is all white space, the condition for `EmptyName` |
| Cookies.TrimStripsBlanks | crates/http-recon/src/main.rs:286-287 | the result is a slice of the input with only white space before and after it: trimming removes surrounding white space and nothing else |
| Cookies.NoBreakSpaceNameIsEmpty | crates/http-recon/src/main.rs:286-287 | a cookie whose name is a lone no-break space (U+00A0) is rejected as `EmptyName`, as non-ASCII white space is trimmed too |
| Cookies.Parse | crates/http-recon/src/main.rs:286-287 | the pair is the text before the first `;` and the attributes the rest: no `=` in the pair is `MissingPair`, a name of white space only is `EmptyName`, and otherwise the name and value are the two sides of the first `=` with only their surrounding white space removed, both valid |
| Cookies.ParsePair | crates/http-recon/src/main.rs:286-287 | the `name=value` pair: no `=` is `MissingPair`; `EmptyName` exactly when the text before the first `=` is all white space, success exactly otherwise; a parsed name and value are the two sides stripped of surrounding white space, and the attribute text is kept |
| Cookies.Serialize | crates/http-recon/src/main.rs:289 | `Cookie::to_string`: name, `=`, value, then the attribute text; no contract of its own, `ParseSerialize` states that parsing inverts it |
| Cookies.ParseSerialize | crates/http-recon/src/main.rs:286-289 | a valid cookie parses back from its serialisation |
| Cookies.Blanked | crates/http-recon/src/main.rs:288 | `set_value("")`: the value emptied, the name and attributes kept; no contract of its own, `BlankedCookie` states the stored text |
| HttpHeaders.AnonymizeValueAsWritten | crates/http-recon/src/main.rs:283-292 | the per-value closure as written, `Err` where `expect` panics |
| HttpHeaders.AsWrittenPanicsOnBareCookie | crates/http-recon/src/main.rs:286-287 | the `Set-Cookie` value `session` (no `=`) makes the as-written closure fail |
| HttpHeaders.AnonymizeValue | crates/http-recon/src/main.rs:283-292 | agrees with the as-written closure wherever that succeeds; other headers are copied; a parsable cookie keeps its name and attributes with an empty value; every `Set-Cookie` result is anonymous |
| HttpHeaders.AnonymizeAll | crates/http-recon/src/main.rs:282-294 | the values of a run, anonymised one by one in order; other headers' values unchanged |
| HttpHeaders.Runs | crates/http-recon/src/main.rs:278 | `chunk_by` on the name: runs are non-empty, adjacent runs have different names, the last run carries the last header's name |
| HttpHeaders.RunsFlatten | crates/http-recon/src/main.rs:278 | flattening the runs back into name-value pairs gives the headers as they came, in order |
| HttpHeaders.Names | crates/http-recon/src/main.rs:278-281 | exactly the names that occur on the wire |
| HttpHeaders.Insertions | crates/http-recon/src/main.rs:279-296 | the map after `map.insert` of each run in turn, a later run of a name replacing an earlier one; no contract of its own, `GroupedSnoc`, `GroupedKeys` and `GroupedContiguous` state its properties and `InsertRuns` is proved against it |
| HttpHeaders.Grouped | crates/http-recon/src/main.rs:276-299 | the corrected `AnonymizedHttpHeaders::from`: the insertions over the `chunk_by` runs; no contract of its own, `GroupedKeys`, `GroupedContiguous`, `GroupedCookiesAnonymous` and `GroupedAllValues` state its properties and `AnonymizeHeaders` is proved equal to it |
| HttpHeaders.GroupedSnoc | crates/http-recon/src/main.rs:278-296 | one more header either extends the last run's entry or replaces the name's entry with a new one-value run |
| HttpHeaders.GroupedKeys | crates/http-recon/src/main.rs:277-298 | the map has one key per header name and no other |
| HttpHeaders.GroupedContiguous | crates/http-recon/src/main.rs:277-298 | when each name's headers are adjacent, every name maps to all its values in wire order, anonymised |
| HttpHeaders.GroupedCookiesAnonymous | crates/http-recon/src/main.rs:285-289 | every stored `Set-Cookie` value is anonymous |
| HttpHeaders.AsWrittenSnoc | crates/http-recon/src/main.rs:282-294 | one more value of a group: the group completes exactly when the shorter group does and the new value parses, and then the new value's anonymised form is appended |
| HttpHeaders.AnonymizeAllAsWritten | crates/http-recon/src/main.rs:282-294 | the `collect` of one group as written: it completes exactly when every `Set-Cookie` value of the group parses, and then equals the corrected group |
| HttpHeaders.InsertionsAsWritten | crates/http-recon/src/main.rs:278-296 | the insert loop as written completes exactly when every `Set-Cookie` value of every run parses, and then builds the corrected map |
| HttpHeaders.PanicIsFinal | crates/http-recon/src/main.rs:286-287 | once a run panics, the loop over all runs panics |
| HttpHeaders.GroupedAsWritten | crates/http-recon/src/main.rs:276-299 | `AnonymizedHttpHeaders::from` as written returns a map exactly when every `Set-Cookie` value parses, and that map is the corrected one |
| HttpHeaders.BareCookiePanics | crates/http-recon/src/main.rs:286-287 | a header map holding `Set-Cookie: session` anywhere makes the conversion as written panic |
| HttpHeaders.GroupedAllValues | crates/http-recon/src/main.rs:277-298 | when each name's headers are adjacent, as `HeaderMap::iter` yields them, every key maps to all of its values in order, anonymised |
| HttpHeaders.AnonymizeHeaders | crates/http-recon/src/main.rs:276-299 | the loop returns the corrected grouped map, or as written the map of `GroupedAsWritten`, no map (a panic) exactly when as written a cookie does not parse; a map has one key per name and, for adjacent names, all values in order |
| HttpHeaders.InsertRuns | crates/http-recon/src/main.rs:278-296 | the insert loop over the runs: the corrected map, or as written the map of `InsertionsAsWritten`, stopping at the first panic |
| HttpHeaders.BlankedCookie | crates/http-recon/src/main.rs:286-289 | a serialised valid cookie becomes `name=` followed by its attributes |
| HttpRecon.ParseTarget | crates/http-recon/src/main.rs:401-412 | `InputSplit` exactly when the line has no space; on success the name is well formed and displays as the text before the first space, and the address parses from the rest; otherwise the error names the part that failed |
| HttpRecon.TargetLineRoundTrip | crates/http-recon/src/main.rs:401-409 | a line made of a name's display, a space and an address text parses back to that target |
| HttpRecon.ParseUrl | crates/http-recon/src/main.rs:197 | `Url::parse` of `scheme://authority`: a bracketed address or a colon-free host is accepted; a rejection has an empty host or a colon outside brackets |
| HttpRecon.ProbeUrlAsWritten | crates/http-recon/src/main.rs:197-233 | the URL as written, `format!("http://{ip}")`, with the address unbracketed |
| HttpRecon.ProbeUrlAsWrittenRejectsV6 | crates/http-recon/src/main.rs:197-233 | every IPv6 address text makes the as-written URL fail to parse |
| HttpRecon.ProbeUrlAsWrittenExample | crates/http-recon/src/main.rs:197 | the URL for `2001:db8::1` fails to parse as written |
| HttpRecon.ProbeUrl | crates/http-recon/src/main.rs:197-233 | a well-formed address always gives a URL whose host is the address, bracketed for IPv6; for IPv4 it is the as-written URL |
| HttpRecon.WithTable | crates/http-recon/src/main.rs:105-179 | writing one scheme's table leaves the other scheme's table alone |
| HttpRecon.Submitted | crates/http-recon/src/main.rs:113-140 | insert-if-absent: existing rows are kept as they are, a new name gets exactly the given row, and rows stay keyed by their name |
| HttpRecon.FirstWriterWins | crates/http-recon/src/main.rs:122-125 | a second submission for a name changes nothing |
| HttpRecon.KnownIn | crates/http-recon/src/main.rs:85-103 | a scheme counts as known exactly when the query worked and its table has a row for the name |
| HttpRecon.HttpStore.constructor | crates/http-recon/src/main.rs:105-179 | both tables start empty |
| HttpRecon.HttpStore.Known | crates/http-recon/src/main.rs:85-103 | `is_fqdn_in_http_recon_db`, a failed query giving `(false, false)` |
| HttpRecon.HttpStore.Submit | crates/http-recon/src/main.rs:105-179 | a working write makes the scheme's table the insert-if-absent of the new row and returns `Ok`; a failed one changes nothing and returns the store error |
| HttpRecon.ProbeScheme | crates/http-recon/src/main.rs:196-230 | one scheme's block: URL, request, header map, print, store, with the tables, lines and result of `ProbeSpec`, including the URL error and the cookie panic as written |
| HttpRecon.ProbeSpec | crates/http-recon/src/main.rs:196-230 | the block specification: a URL error or a cookie panic returns at once with nothing printed or stored; otherwise print unless quiet, then store when there is a store; no contract of its own, the lemmas below state its properties |
| HttpRecon.ReconHttp | crates/http-recon/src/main.rs:181-268 | `recon_http`: the known check, then HTTP, then HTTPS unless HTTP failed, with the tables, lines and result of `ReconSpec` |
| HttpRecon.KnownFor | crates/http-recon/src/main.rs:188-194 | a scheme counts as known exactly when storage is on, the existence query worked and that scheme's table holds the name |
| HttpRecon.Probes | crates/http-recon/src/main.rs:196-232 | a block runs when known names are queried or its scheme is not known; no contract of its own, `KnownTargetNotProbed`, `OnlyHttpKnownProbesHttps`, `OnlyHttpsKnownProbesHttp` and `FailedLookupProbesBoth` state the four cases |
| HttpRecon.ReconSpec | crates/http-recon/src/main.rs:181-268 | the specification of `recon_http`: a block runs when known names are queried or its table lacks the name; no contract of its own, the lemmas below state its properties |
| HttpRecon.KnownTargetNotProbed | crates/http-recon/src/main.rs:190-232 | a name both tables hold is neither probed, printed nor stored again unless known names are queried |
| HttpRecon.OnlyHttpKnownProbesHttps | crates/http-recon/src/main.rs:190-232 | a name only the HTTP table holds, without querying known names: `recon_http` is exactly the HTTPS block |
| HttpRecon.OnlyHttpsKnownProbesHttp | crates/http-recon/src/main.rs:190-232 | a name only the HTTPS table holds, without querying known names: `recon_http` is exactly the HTTP block, failed or not |
| HttpRecon.FailedLookupProbesBoth | crates/http-recon/src/main.rs:97-102 | a failed existence query behaves as if known names were queried: both schemes are probed |
| HttpRecon.ProbeIgnoresQueryKnown | crates/http-recon/src/main.rs:196-230 | a block does not depend on `--query-known-fqdns` |
| HttpRecon.ExtendsTransitive | crates/http-recon/src/main.rs:105-179 | keeping rows composes over two steps |
| HttpRecon.ProbeKeepsRows | crates/http-recon/src/main.rs:196-230 | a probe keeps every existing row, and adds at most the probed name |
| HttpRecon.ReconKeepsRows | crates/http-recon/src/main.rs:181-268 | a target keeps every existing row in both tables, and adds at most its own name |
| HttpRecon.SurvivorsAgree | crates/http-recon/src/main.rs:197-242 | for a target that survives the code as written, both programs build the same URL, the address bracketed if needed, and the same grouped headers |
| HttpRecon.V6TargetFailsAsWritten | crates/http-recon/src/main.rs:196-233 | as written, an IPv6 target prints and stores nothing, and `recon_http` fails with a URL error exactly when a block runs |
| HttpRecon.BadCookiePanicsAsWritten | crates/http-recon/src/main.rs:203-209 | as written, an HTTP answer with an unparsable `Set-Cookie` value panics before its line is printed or anything is stored |
| HttpRecon.ReconStoresAnswer | crates/http-recon/src/main.rs:203-264 | with a store and working writes, a new name that survives the code as written gets in each table the status and anonymised headers of the answer, or status 0 and `{}` for a failed request |
| HttpRecon.ProbeStoresAnswer | crates/http-recon/src/main.rs:203-228 | one block with a store and a working write stores its row under the name and leaves the other table alone |
| HttpRecon.ReconSideEffects | crates/http-recon/src/main.rs:190-212 | without a store nothing is stored, and nothing fails for a well-formed address that survives the code as written; when quiet nothing is printed |
| HttpRecon.ProbeSideEffects | crates/http-recon/src/main.rs:196-230 | one block: without a store no rows and, when its URL and header map are built, no error; when quiet no lines |
| HttpRecon.ReconPrintsAnswers | crates/http-recon/src/main.rs:204-246 | when both schemes are probed for a target that survives the code as written, one line per answered scheme, HTTP first, none for a failed request, and a failed HTTPS write does not undo its line |
| HttpRecon.StoredRowHeaders | crates/http-recon/src/main.rs:204-221 | a stored answer's header map has one key per header name and, as `HeaderMap::iter` yields each name's values together, all of them in order, anonymised |
| HttpReconMain.LineStep | crates/http-recon/src/main.rs:401-424 | the specification of one line: parse, then warn or hand the target to `recon_http`; no contract of its own, `StepWarnings`, `FailingLineEndsRun` and the lemmas below state its properties |
| HttpReconMain.StepWarnings | crates/http-recon/src/main.rs:401-412 | one line adds exactly its own parse error to the warnings when it is not a target, and nothing otherwise |
| HttpReconMain.RunHttpRecon | crates/http-recon/src/main.rs:399-430 | the loop's tables, lines, warnings and result are those of the run specification over the input |
| HttpReconMain.RunSpec | crates/http-recon/src/main.rs:399-430 | the run specification: each line parsed, warned about or handed to `recon_http`, stopping at the first error; no contract of its own, the lemmas below state its properties |
| HttpReconMain.AbortIsFinal | crates/http-recon/src/main.rs:428-430 | after the first error no later line changes anything |
| HttpReconMain.RunKeepsRows | crates/http-recon/src/main.rs:399-430 | over a whole run, every row already in a table stays unchanged |
| HttpReconMain.WarningPerMalformedLine | crates/http-recon/src/main.rs:401-412 | a run that ends well gave exactly one warning per line that is not a target |
| HttpReconMain.MalformedLineWarned | crates/http-recon/src/main.rs:401-412 | in a run that ends well, every line that is not a target left its own error among the warnings, later lines being read all the same |
| HttpReconMain.RunWithoutStorage | crates/http-recon/src/main.rs:399-430 | without a store, with an address parser that yields well-formed addresses, and for targets that survive the code as written, a run succeeds and stores nothing |
| HttpReconMain.FailingLineEndsRun | crates/http-recon/src/main.rs:428-430 | a line whose step fails ends the run: the run over the whole input is the run up to that line |
| HttpReconMain.V6LineEndsRunAsWritten | crates/http-recon/src/main.rs:196-233 | as written, a probed IPv6 target ends the run with an error, and no later line is read |
| HttpReconMain.BadCookieLineEndsRunAsWritten | crates/http-recon/src/main.rs:283-292 | as written, an HTTP answer with an unparsable cookie ends the run, in a panic when nothing failed before, and no later line is read |
| DnsRecon.NetworkAsWrittenV4 | crates/dns-recon/src/main.rs:78 | as written, an IPv4 address is stored as its single-host network |
| DnsRecon.NetworkAsWrittenWidensV6 | crates/dns-recon/src/main.rs:78 | as written, an IPv6 address is stored with prefix 32, a network 96 bits wider than the host |
| DnsRecon.HostNetwork | crates/dns-recon/src/main.rs:76-79 | the corrected network for an address: that address alone, prefix 32 for IPv4 and 128 for IPv6 |
| DnsRecon.StoredNetwork | crates/dns-recon/src/main.rs:78 | the network stored for an address keeps the address; it is the host network in the corrected program and for IPv4, and as written a /32 that is not a single host for IPv6 |
| DnsRecon.NetworkSet | crates/dns-recon/src/main.rs:76-79 | every address's stored network is in the set, and every network in it is the stored network of one of the addresses |
| DnsRecon.ToNetworks | crates/dns-recon/src/main.rs:76-79 | the push loop: one stored network per address, in order, and exactly the networks of the address set |
| DnsRecon.Upserted | crates/dns-recon/src/main.rs:81-92 | the upsert adds the name's key and keeps every other row; the name's addresses become the union of the stored ones and the new ones; an existing row keeps its name and domain; a new row gets the name and its domain |
| DnsRecon.UpsertGrows | crates/dns-recon/src/main.rs:86 | the merge never removes a row or an address, and the new addresses are all stored |
| DnsRecon.GrowsTransitive | crates/dns-recon/src/main.rs:86 | growth composes over two writes |
| DnsRecon.UpsertIdempotent | crates/dns-recon/src/main.rs:86 | resubmitting the same addresses changes nothing |
| DnsRecon.UpsertNothing | crates/dns-recon/src/main.rs:81-97 | an empty submission for a stored name leaves the table as it was |
| DnsRecon.DisplayInjective | crates/grimoire/src/lib.rs:104-108 | two well-formed names with the same text are the same name, so the text is a sound key |
| DnsRecon.UpsertCommutes | crates/dns-recon/src/main.rs:81-92 | two writers, for the same name or two names, leave the same table in either order |
| DnsRecon.UpsertCommutesOneName | crates/dns-recon/src/main.rs:86 | two writes for one name leave the union of both address sets in either order |
| DnsRecon.UpsertCommutesTwoNames | crates/dns-recon/src/main.rs:81-92 | writes for two different names leave the same table in either order |
| DnsRecon.DnsStore.constructor | crates/dns-recon/src/main.rs:81-92 | the table starts empty |
| DnsRecon.DnsStore.Exists | crates/dns-recon/src/main.rs:58-68 | `is_fqdn_in_dns_recon_db`: true exactly when the query worked and the table has a row for the name |
| DnsRecon.DnsStore.Submit | crates/dns-recon/src/main.rs:70-100 | a working write merges the addresses' stored networks into the name's row and returns `Ok`; a failed one changes nothing and returns the store error |
| DnsRecon.Admits | crates/dns-recon/src/main.rs:102-112 | a name is dropped exactly when there is a store, known names are not queried again, and the name is known |
| DnsRecon.AnswerLine | crates/dns-recon/src/main.rs:187-189 | the printed line is the name, a space, and the addresses joined by spaces |
| DnsRecon.AnswerLineSplits | crates/dns-recon/src/main.rs:188 | the name and the address list can be read back from a printed line |
| DnsRecon.Lowered | crates/dns-recon/src/main.rs:184 | the name an answer carries has as many labels as the name read and prints as it, lowercased |
| DnsRecon.LoweredWellFormed | crates/dns-recon/src/main.rs:184 | lowercasing keeps a parsed name well formed, strict rules included, so the printed line splits back |
| DnsRecon.RunDnsRecon | crates/dns-recon/src/main.rs:169-209 | the loop's table, lines, warnings and result are those of `RunSpec`, one name at a time in input order |
| DnsRecon.RunSpec | crates/dns-recon/src/main.rs:169-209 | the run specification: lines handled in order, stopping at the first error; no contract of its own, the lemmas below state its properties |
| DnsRecon.HandleLine | crates/dns-recon/src/main.rs:171-206 | one pass of the loop: a line that is not a name adds a warning; a name is checked against the store under its text as read, then resolved, with the outcome of `LineStep` |
| DnsRecon.LineStep | crates/dns-recon/src/main.rs:171-178 | the specification of one line: parse, warn or check against the store, then `Resolved`; no contract of its own, the lemmas below state its properties |
| DnsRecon.HandleAnswer | crates/dns-recon/src/main.rs:181-209 | one resolver answer: printed and written under the lowercased name, with the outcome of `Resolved` |
| DnsRecon.Resolved | crates/dns-recon/src/main.rs:181-209 | the specification of one answer: line and write under the lowercased name, an empty write for "no records", any other error ends the run; no contract of its own, the lemmas below state its properties |
| DnsRecon.AbortIsFinal | crates/dns-recon/src/main.rs:192-206 | after the first error no later line changes anything |
| DnsRecon.LineGrows | crates/dns-recon/src/main.rs:181-209 | a line never removes a row or an address |
| DnsRecon.ResolvedGrows | crates/dns-recon/src/main.rs:181-209 | handling an answer never removes a row or an address |
| DnsRecon.RunGrows | crates/dns-recon/src/main.rs:181-209 | over a whole run the table only grows, whatever the answers and failures |
| DnsRecon.KnownNameSkipped | crates/dns-recon/src/main.rs:177 | a stored name is neither resolved, printed nor written when known names are not queried again and the query works |
| DnsRecon.NameAdmitted | crates/dns-recon/src/main.rs:103-112 | without a store, when known names are queried again, or when the query fails or finds no row, the name is resolved |
| DnsRecon.RepeatedNameSkipped | crates/dns-recon/src/main.rs:177-193 | a lowercase name read again after it was stored is skipped the second time |
| DnsRecon.MixedCaseNameResolvedAgain | crates/dns-recon/src/main.rs:177-197 | a new name with capitals is stored under its lowercase text only, so the next occurrence finds no row and is resolved again |
| DnsRecon.AnswerPrintedAndStored | crates/dns-recon/src/main.rs:183-193 | an answer adds its line, under the lowercased name, unless quiet; with a store a working write merges exactly its stored networks into that name's row: every IPv4 host, every IPv6 host when corrected, and a /32 per address as written; a failed write ends the run; without a store nothing is written |
| DnsRecon.NoRecordsStoresEmpty | crates/dns-recon/src/main.rs:196-202 | "no records" prints nothing and stores an empty set under the lowercased name: a new empty row with its domain, or an existing row left alone |
| DnsRecon.NoRecordsWriteFailureAborts | crates/dns-recon/src/main.rs:196-202 | with storage on, a failed write of the empty answer ends the run with a store error, nothing printed or stored |
| DnsRecon.FailedLookupAborts | crates/dns-recon/src/main.rs:204-206 | any other resolver error ends the run and touches nothing else |
| DnsRecon.StepWarnings | crates/dns-recon/src/main.rs:171-176 | one line adds exactly its own parse error to the warnings when it is not a name, and nothing otherwise |
| DnsRecon.MalformedLineWarned | crates/dns-recon/src/main.rs:171-176 | in a run that ends well, every line that is not a name left its own error among the warnings, later lines being read all the same |
| DnsRecon.WarningPerMalformedLine | crates/dns-recon/src/main.rs:171-176 | a run that ends well gave exactly one warning per line that is not a name |

## Left out

- Reading standard input through `LinesCodec`. The model takes the decoded lines. Codec errors, which are only logged, are not modelled. Neither is `from_utf8_lossy`.
- The network. HEAD requests and DNS lookups are outcomes given per line (`Outcome`, `Lookup`). The request builder's error at crates/http-recon/src/main.rs:198-201 is not modelled: with a parsed URL and a valid name as `Host` it has no case to fail on.
- The DNS server bootstrap, resolver configuration and CLI parsing (`clap`), plus logging through `tracing`.
- The database connection and migrations (`create_recon_db_pool`). Queries and writes succeed or fail as the environment says. The schema is not part of this model. The `dns-recon` upsert is taken to conflict on the name, as its union merge implies. Names are compared as exact text, as a plain `text` column compares them.
- Concurrency. http-recon's `flat_map_unordered` runs targets concurrently. The model runs them one at a time in input order, which is one of the orders the source allows. The check-then-insert race in the HTTP submit functions is therefore not modelled.
- The leaky-bucket rate limiter (crates/http-recon/src/main.rs:370-375, 392). It only delays requests, and its behaviour lives in a library.
- `Display for AnonymizedHttpHeaders` (JSON, then Base64, with a 64 KiB fallback) and the JSON encoding of stored headers. Printed lines and rows carry the header map itself.
- `IpAddr::from_str` and the address's canonical text. The parser is a parameter (`IpParser`). `CanonicalText` says only which characters a canonical text holds.
- `HttpRecon.ParseUrl` models only the host and port checks of `Url::parse` that matter for an address host. It does not check port ranges or IPv6 address syntax inside brackets.
- HTTP status as `nat` rather than `u16`. Stored as `i32` in the source, every `u16` fits.
- `Cookies.Parse`: cookie attributes are kept as raw text after the first `;`. The attribute grammar and percent-decoding of the `cookie` crate are not modelled.
- Name conversion in hickory (`Name::from_utf8`, the IDNA mapping of UTS 46). Only its ASCII lowercasing is modelled (`DnsRecon.Lowered`). A name the IDNA rules reject makes the lookup fail with an error other than "no records", which is a `Failed` lookup here.
- BlankedCookie: `Cookie::to_string` writes the attributes it knows in its own fixed order and drops the others. The model keeps the attribute text as received, so the stored text is stated for the raw attributes.
- Cookies.Serialize: the same attribute normalisation of `Cookie::to_string` is not modelled, so `ParseSerialize` is stated for raw attribute text.
- HttpRecon.ProbeScheme: a panic in `expect` is modelled as the error `Panic` returned by `recon_http`. A panic unwinds instead of returning, but either way the run ends there.
- HttpRecon.ReconStoresAnswer: promised only for targets that survive the code as written (`Survives`). For the others, `V6TargetFailsAsWritten` and `BadCookiePanicsAsWritten` state the abort.
- HttpRecon.ReconSideEffects: "nothing fails" is promised only for targets that survive the code as written.
- HttpRecon.ReconPrintsAnswers: promised only for targets that survive the code as written.
- HttpReconMain.RunWithoutStorage: promised only for targets that survive the code as written. `V6LineEndsRunAsWritten` and `BadCookieLineEndsRunAsWritten` state how the other runs end.
- DnsRecon.RepeatedNameSkipped: promised only for lowercase names. `MixedCaseNameResolvedAgain` states what happens to the others.
- DNS rows store a set of networks. The order and any duplicates of the first insert's array are not modelled.
- `IpNetwork::new` returns an error when the prefix exceeds the address width. With prefix 32 or the family's full width it cannot fail, so that path is absent.
- The cert-recon tool, which only formats one SQL query, and the Python package (process and logging helpers).

## Findings

With `corrected` off, the pipeline runs the as-written members below. With it on, it runs the corrected ones.

| source | as written | input that shows it | evidently intended | confidence | as-written member | corrected member |
|---|---|---|---|---|---|---|
| crates/http-recon/src/main.rs:197-233 | the probe URL is `format!("http://{ip}")`, with IPv6 addresses not bracketed | target `example.com 2001:db8::1`: `Url::parse("http://2001:db8::1")` fails, so `recon_http` returns an error and the whole run stops | bracket IPv6 hosts, `http://[2001:db8::1]` | medium, not executed | HttpRecon.ProbeUrlAsWrittenRejectsV6 | HttpRecon.ProbeUrl |
| crates/http-recon/src/main.rs:286-287 | `Cookie::parse(..).expect(..)` on every `Set-Cookie` value | a response carrying `Set-Cookie: session` (no `=`) makes the process panic | treat an unparsable cookie as anonymised (value blanked), not as a crash | medium, not executed | HttpHeaders.AsWrittenPanicsOnBareCookie | HttpHeaders.AnonymizeValue |
| crates/dns-recon/src/main.rs:78 | `IpNetwork::new(*ip, 32)` for every address | an AAAA answer `2001:db8::1` is stored as `2001:db8::1/32`, a network of 2^96 addresses | the host prefix of the family: 32 for IPv4, 128 for IPv6 | low, not executed | DnsRecon.NetworkAsWrittenWidensV6 | DnsRecon.StoredNetwork |
