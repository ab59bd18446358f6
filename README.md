# wiki-data: domain extraction, DNS result handling and the ccTLD filter, in Dafny

This project models three parts of the wiki-data scripts and proves properties about them.

1. **The external-links dump scanner** (`process_one_file` in `wiki_get_domains_from_databases.py`). It reads one decompressed MySQL dump of a wiki's `externallinks` table line by line:
   - it skips lines under 1000 characters;
   - it abandons the whole file at the first long line that lacks the `INSERT INTO` prefix or the `;\n` terminator;
   - it splits each statement into tuples and takes the URL out of each tuple;
   - it runs the URL through the chain of host filters and adds each surviving host to a set;
   - it writes that set, one name per line, to `<domains_dir>/<short name>.txt`.

   The main block's union of all domain files (lines 221-225) is modelled too.
2. **DNS reply handling** (`wiki_results.py`):
   - `get_dns_for_one_name` turns the two JSON lines printed by `getdns_query` into the record `{"4": [...], "6": [...], "D": bool}`. It is modelled with its whole early-return ladder, including the exceptions it does not catch.
   - The main block maps that function over the names in input order, splits the names into `dns_failed` and `dns_results`, counts the DNSSEC and IPv6 hits, keeps the first `subset_size` results, and writes `dns_failed.txt`.
3. **The ccTLD filter** (`make_cctld_list.py`). It keeps the lines of `all-domains.txt` whose last dot-label has exactly two characters, and writes them one per line.

Each imperative loop of the source is a Dafny `method` with a `while` loop. Each one is proved equal to a specification function: `DomainOfUrl`/`UrlDomain`, `ProcessOneFile`/`ExtractFile`, `CollectAddresses`/`AddressScan`, `GetDnsForOneName`/`Interpret`, `ResolveAll`/`Resolve` and `JustCctlds`/`CctldsOf`. The lemmas then state what those functions mean.

Files:
- `wrappers.dfy`: `Option`.
- `pystr.dfy`: the Python `str` operations the scripts use:
  - `find`/`index`, `in`, `startswith`, `endswith`;
  - `split` with and without `maxsplit=1`, and `split(...)[-1]`;
  - ASCII `lower()` and `isdigit()`;
  - in a second module, `PyJoin`, `str.join` and how `split` relates to it.
- `lines.dfy`: `str.splitlines()`, and writing a set one item per line.
- `json.dfy`: the values `json.loads` produces, their truthiness, and `dict.get`.
- `extractor.dfy`, `resolver.dfy`, `cctld.dfy`: the three parts above.

Where the code differs from the system's documented design, the model follows the code:
- **Prefix length.** The statement prefix is compared on 35 characters (`this_line[0:35]`), and the body starts at index 36.
- **Bad long line.** Such a line discards everything gathered from the file (the function returns before writing). It does not just end the file early.
- **Dot test.** The "contains a `.`" test runs on the host before its port is removed. So `http://localhost:8080.x/` yields `localhost`.
- **Partial results.** A failure in the address loops does not always give the empty record. `"4"` keeps what was gathered before the failure, and the IPv6 stage keeps `"4"` and a partial `"6"`.
- **Uncaught exceptions.** Some reply shapes raise instead of degrading:
  - a reply that parses to something other than an object (`.get` on it);
  - an A reply without `"replies_tree"` (the `KeyError` is raised again inside the handler at line 66).

  Because `executor.map` re-raises such an exception in the main loop, the whole run stops and saves nothing.
- **Division by zero.** The statistics lines divide by `len(all_names)` and `len(dns_results)`. So an empty input, or a run in which no name got an IPv4 address, stops with `ZeroDivisionError` before anything is saved.

## Model

| member | source | states |
|---|---|---|
| PyStr.Find | wiki_get_domains_from_databases.py:88 | `str.index`/`find`: the result is the first position where the pattern occurs, or -1 exactly when it occurs nowhere |
| PyStr.SplitFirst | wiki_get_domains_from_databases.py:55-56 | unpacking `s.split(sep, maxsplit=1)` into two parts: fails exactly when `sep` does not occur; otherwise `s == a + sep + b` with `a` ending at the first occurrence |
| PyJoin.SplitJoinsBack | wiki_get_domains_from_databases.py:51 | the parts of `s.split(sep)`, joined with `sep`, give back `s`, and no part contains `sep` |
| PyStr.AfterLastShape | wiki_get_domains_from_databases.py:93 | `s.split(c)[-1]` is a suffix of `s` without `c`; it is all of `s` when `c` does not occur, and is otherwise preceded by `c` |
| PyJoin.AfterLastIsLastPart | wiki_get_domains_from_databases.py:93 | `AfterLast(s, c)` is the last element of `s.split(c)`, the part `[-1]` takes |
| PyStr.AfterLastOf | wiki_get_domains_from_databases.py:93 | the last part of `a + c + b`, for `b` without `c`, is `b` |
| LineFiles.SplitLines | wiki_get_domains_from_databases.py:224 | `str.splitlines()`: no line it yields holds a line break |
| LineFiles.SplitJoin | wiki_get_domains_from_databases.py:108-109 | writing names one per line and reading the text back with `splitlines()` gives the same list, when no name holds a line break |
| LineFiles.WriteLines | wiki_get_domains_from_databases.py:107-110 | writing a set one item per line: every item once, in some order, and the text reads back as that order |
| Extractor.PrefilterSubsumed | wiki_get_domains_from_databases.py:66-71 | every scheme that lowercases to `http` or `https` also passes the `//`, `&`, `%`, `?`, `,` prefilter |
| Extractor.DomainOfUrl | wiki_get_domains_from_databases.py:61-105 | the filter chain, step by step, gives exactly `UrlDomain(url)` |
| Extractor.UrlDomainOfParts | wiki_get_domains_from_databases.py:63-88 | for `scheme://host/path`, the candidate is `host`, lowercased and truncated at its first `:`; it is kept when the scheme is http/https, the unstripped host has a `.` and the candidate is a domain name |
| Extractor.StripPortOf | wiki_get_domains_from_databases.py:87-88 | the text from the first `:` on is removed |
| Extractor.NumericLastRefused | wiki_get_domains_from_databases.py:93-94 | a name whose last label is all digits is refused |
| Extractor.SingleLabelName | wiki_get_domains_from_databases.py:90-103 | a non-empty, non-numeric label over `[a-z0-9]` passes every character and label test |
| Extractor.ExtendName | wiki_get_domains_from_databases.py:90-103 | a name followed by `.` and a non-numeric label, including the empty one, passes again, and that label becomes the last |
| Extractor.DotInPortAdmitsSingleLabel | wiki_get_domains_from_databases.py:82-88 | a port containing a `.` lets a name without a `.` through: `http://name:port/` yields `name` |
| Extractor.ExampleComIsName | wiki_get_domains_from_databases.py:90-103 | `example.com` is a domain name |
| Extractor.UrlExampleMixedCase | wiki_get_domains_from_databases.py:74-88 | `HTTP://Example.COM:8080/x?y` yields `example.com` |
| Extractor.UrlExampleFtp | wiki_get_domains_from_databases.py:70-71 | an `ftp:` link yields nothing |
| Extractor.UrlExampleAddress | wiki_get_domains_from_databases.py:93-94 | `http://192.168.1.1/` yields nothing |
| Extractor.UrlExampleTrailingDot | wiki_get_domains_from_databases.py:93-103 | `http://example.com./` yields `example.com.`, whose last label is empty |
| Extractor.UrlExampleDotInPort | wiki_get_domains_from_databases.py:82-88 | `http://localhost:8080.x/` yields `localhost` |
| Extractor.TupleUrlIntro | wiki_get_domains_from_databases.py:54-56 | for a tuple `a,b,` + quote + url + `','` + tail, with no comma in `a` or `b`, the URL is the text up to the first `','` after the quote |
| Extractor.CollectMembers | wiki_get_domains_from_databases.py:52-60 | a domain is gathered from a statement exactly when one of its tuples yields it; a failing tuple adds nothing and does not affect the others |
| Extractor.CollectTuples | wiki_get_domains_from_databases.py:52-105 | the loop over one statement's tuples gathers exactly the domains the tuples yield |
| Extractor.TupleDomainsAreNames | wiki_get_domains_from_databases.py:85-105 | everything gathered is over `[a-z0-9.]`, non-empty, does not start with `.`, has no `..`, and its last label is not a number |
| Extractor.StoppedStays | wiki_get_domains_from_databases.py:43-48 | once a long line is bad, no later line changes the outcome |
| Extractor.ScanStopsAtFirstBad | wiki_get_domains_from_databases.py:39-48 | the scan aborts exactly when some long line lacks the prefix or the terminator, and it stops at the first such line |
| Extractor.ScanCollects | wiki_get_domains_from_databases.py:39-105 | a scan that reaches the end holds exactly the domains that some statement line gives |
| Extractor.ProcessOneFile | wiki_get_domains_from_databases.py:16-111 | the per-file procedure gives the outcome `ExtractFile` describes, and writes `<dir>/<short name>.txt` exactly when that outcome is a set; the file lists each domain of the set once |
| Extractor.ExtractFileMeaning | wiki_get_domains_from_databases.py:24-110 | a domain file is written exactly when the archive has at least 500 bytes, gunzip succeeds and no long line is bad; it then holds exactly the domains some tuple of some statement yields, all of them domain names |
| Extractor.ShortName | wiki_get_domains_from_databases.py:17 | the short name is a prefix of the base name, and holds neither `/` nor `-` |
| Extractor.ShortNameOf | wiki_get_domains_from_databases.py:17 | the short name of `dir/name-rest` is `name` |
| Extractor.NameHasNoBreaks | wiki_get_domains_from_databases.py:90 | a domain name holds no line break, so the domain file reads back line by line |
| Extractor.CollectDomainFiles | wiki_get_domains_from_databases.py:221-225 | the master set, built file by file and line by line, is the union of the lines of all files |
| Extractor.ListedNamesUnion | wiki_get_domains_from_databases.py:221-225 | a name is in the master set exactly when some domain file's set holds it |
| Resolver.FirstMalformed | wiki_results.py:41-44 | the position of the first address record whose lookups raise: every earlier record is well-formed |
| Resolver.TaggedDataAppend | wiki_results.py:41-43 | the address data of records gathered from two lists in turn are the data of each list, in order |
| Resolver.TaggedDataMembers | wiki_results.py:41-43 | a value is gathered exactly when some record carries the tag and holds that value as `address_data` |
| Resolver.AddressScanOfList | wiki_results.py:40-46 | the address loop runs to its end exactly when no record is malformed, and it gathers the data of the tagged records before the first malformed one |
| Resolver.CollectAddresses | wiki_results.py:40-46 | the loop gathers and stops as `AddressScan` describes, for lists, objects, strings and values that are not iterable |
| Resolver.GetDnsForOneName | wiki_results.py:10-68 | the function returns or raises what `Interpret` of the probe reply describes |
| Resolver.AFailureIgnoresAAAA | wiki_results.py:30-39 | if the A reply does not parse, or its address list is missing or empty, the result is the default record whatever the AAAA reply holds |
| Resolver.V4IndependentOfAAAA | wiki_results.py:40-60 | the `"4"` list of a returned record does not depend on the AAAA reply |
| Resolver.V4FromTaggedRecords | wiki_results.py:40-46 | every `"4"` entry is the `address_data` of an `IPv4` record of the A reply's list |
| Resolver.MalformedStopsV4 | wiki_results.py:40-46 | a malformed record after an IPv4 record returns that address, with `"6"` empty and `"D"` false |
| Resolver.DnssecIff | wiki_results.py:62-68 | `"D"` is true exactly when both address loops complete, `"replies_tree"` is present and its first item has `dnssec_status` 400 |
| Resolver.DnssecWithoutV4 | wiki_results.py:40-64 | `"D"` can be true while `"4"` is empty |
| Resolver.RaisedIff | wiki_results.py:36-67 | the function raises exactly when a reply parsed to a non-object reaches `.get`, or when both loops complete on an A reply without `"replies_tree"` |
| Resolver.Put | wiki_results.py:123 | `dns_results[name] = rec` keeps the dict well-formed; a new key goes last, and an existing key keeps its place and takes the new value |
| Resolver.Partition | wiki_results.py:119-123 | the result dict of the partition is well-formed, and there are no more failed names than names |
| Resolver.FailedExactly | wiki_results.py:119-121 | a name is in `dns_failed` exactly when one of its records has an empty `"4"` |
| Resolver.EmptyV4Positions | wiki_results.py:120-121 | the positions of the records with an empty `"4"` list, increasing and complete |
| Resolver.FailedInOrder | wiki_results.py:119-121 | `dns_failed` lists the names at those positions, in input order |
| Resolver.ResultsExactly | wiki_results.py:119-123 | a name is a key of `dns_results` exactly when one of its records has a non-empty `"4"` |
| Resolver.LastResolved | wiki_results.py:122-123 | the last position of a name with a non-empty `"4"`; no later occurrence has one |
| Resolver.ResultIsLast | wiki_results.py:122-123 | the record stored for a name is that of its last occurrence with a non-empty `"4"` |
| Resolver.PartitionSizes | wiki_results.py:119-123 | with distinct names, `len(dns_failed) + len(dns_results)` is the number of names |
| Resolver.PartitionSizesBound | wiki_results.py:119-123 | `dns_results` has no more entries than there are names |
| Resolver.CountKeys | wiki_results.py:127-133 | a count of results never exceeds their number |
| Resolver.CountKeysExtremes | wiki_results.py:127-133 | a count equals the number of results exactly when every result qualifies, and is 0 exactly when none does |
| Resolver.CountResults | wiki_results.py:127-133 | the loop counts the DNSSEC and the IPv6 results; neither count exceeds `len(dns_results)` |
| Resolver.PySliceEnd | wiki_results.py:143 | the end of the slice `xs[:n]` under Python's rules for negative and too-large `n` |
| Resolver.CopyKeysMeaning | wiki_results.py:144-145 | copying distinct keys lists them in order, each with its record from the source |
| Resolver.CullKeepsPrefix | wiki_results.py:139-145 | `dns_samples` holds exactly the first `min(subset_size, len(dns_results))` keys, in insertion order, with unchanged records |
| Resolver.CullResults | wiki_results.py:139-145 | the culling loop builds exactly `Cull` of the results |
| Resolver.FirstRaised | wiki_results.py:119 | the position of the first call that raised; all earlier calls returned |
| Resolver.LookUpAll | wiki_results.py:119 | `executor.map` gives one result per name, in input order |
| Resolver.MapLookups | wiki_results.py:118-119 | the lookups, run one after another, give `LookUpAll` |
| Resolver.SplitResults | wiki_results.py:118-123 | the zip loop re-raises exactly the first exception; otherwise it builds exactly the partition |
| Resolver.FailedFileText | wiki_results.py:151-154 | the text of `dns_failed.txt` is the failed names, each followed by a newline |
| Resolver.ResolveAll | wiki_results.py:115-154 | the main block computes or crashes as `Resolve` describes |
| Resolver.CrashIff | wiki_results.py:118-136 | a run saves nothing exactly when some lookup raised, there were no names, or no name got an IPv4 address |
| Resolver.FinishedSplitsNames | wiki_results.py:119-123 | in a finished run, the names are failed or resolved according to their `"4"` lists; distinct names land in exactly one of the two |
| Resolver.FinishedTotals | wiki_results.py:127-145 | in a finished run, `dnssec_total` and `ipv6_total` are at most `len(dns_results)`, and the samples are a prefix of the results with their records |
| Resolver.FailedFileReadsBack | wiki_results.py:151-154 | `dns_failed.txt` read back line by line is `dns_failed` |
| Cctld.CctldLineShape | make_cctld_list.py:39-40 | a line is kept exactly when it ends in two non-`.` characters that are either the whole line or follow a `.` |
| Cctld.CctldsExactly | make_cctld_list.py:37-41 | soundness and completeness: a name is saved exactly when it is an input line whose last label has two characters |
| Cctld.JustCctlds | make_cctld_list.py:37-41 | the loop builds exactly the set of kept lines |
| Cctld.MakeCctldList | make_cctld_list.py:37-47 | the saved file lists each kept name once, and reads back as the written order |
| Cctld.RefilterSame | make_cctld_list.py:37-47 | filtering the saved file again gives the same set |
| Cctld.ExampleDe | make_cctld_list.py:39-40 | `de` is kept |
| Cctld.ExampleCom | make_cctld_list.py:39-40 | `com` is not kept |
| Cctld.ExampleEmpty | make_cctld_list.py:39-40 | the empty line is not kept |
| Cctld.ExampleCoUk | make_cctld_list.py:39-40 | `bbc.co.uk` is kept |
| Cctld.ExampleTrailingDot | make_cctld_list.py:39-40 | `example.com.` is not kept, because its last label is empty |

## Left out

- **Subprocesses, files and sizes are inputs.** This covers `curl`, `gunzip`, `getdns_query`, temporary files, `os.path.getsize`, `open`, `glob`, `os.mkdir`, logging and argparse.
  - The archive's size, its lines (or `None` when gunzip fails), the probe's output and the texts of the domain files are parameters.
  - The written file is returned as a path and a text.
- **Decoding of file lines.** File iteration and newline translation are I/O. The lines of a dump are given as the text iterator yields them (each ending in its `\n`).
- **`json.loads` is abstracted.** Each reply line is given already parsed, or as `None` where parsing raised.
  - Duplicate keys and the parser's internals are not modelled.
  - Numbers are exact rationals. `NaN` and `Infinity` are not modelled.
- **`lower()` is ASCII lowercasing.** A non-ASCII Latin-1 character stays non-ASCII after Python's `lower()`, and the `[a-z0-9.]` test rejects it either way.
- **`isdigit()` means "non-empty and all 0-9".** At line 93 it only sees strings over `[a-z0-9.]`.
- **Randomness is left out.** `random.sample` and `--limit_input` take an external sample of the names. The names are an input.
- **Concurrency is left out.** `ProcessPoolExecutor` is modelled only as an order-preserving map that re-raises a worker's exception when the main loop reaches its result. The model assumes `log`/`debug` are visible in the workers (the fork start method).
- **Logging output is left out.** This covers the log and debug messages, including the elapsed-time and percentage lines. Only their division by zero on empty input is kept, as a crash.
- **`pickle.dump` of `dns_samples` is left out.** The model returns the dict it would write.
- **The broken main block is not modelled.** `wiki_get_domains_from_databases.py` has a syntax error at line 116, and uses `out_f` before it is assigned at line 230. Only the union at lines 221-225 is modelled.
- **Archive retrieval is not modelled.** This covers the index-page regex at lines 183-184 and the `do_not_get` check at lines 192-194. Both depend on the `re` engine and the network.
- **The DNSSEC code is compared, not interpreted.** The meaning of status code 400 belongs to the probing tool. The model compares it to 400, as line 63 does.
- V4FromTaggedRecords: states one direction only, that every `"4"` entry comes from an `IPv4` record. The converse and the order are stated on the list itself by AddressScanOfList and TaggedDataAppend.
