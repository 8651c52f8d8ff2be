# dns-ligase: a model and its proofs

dns-ligase is a filtering DNS forwarder. A client's query is parsed by hand, its first name is checked against
compiled filter lists, a blocked name is refused with NXDOMAIN, and everything else is rewritten (EDNS0, DO) and
forwarded over a pool of sockets; the reply is scanned for blocked aliases, cut down when the client cannot take it,
and relayed. The lists are downloaded, cached on disk and rebuilt by a refresh timer and by configuration reloads that
share one cache.

The project models five parts of it and proves what each is for.

1. **Wire format** (`Bytes`, `Names`, `Wire`, `Codec`, `Grammar`, `Rewrite`, `Forwarded`). `Names` and `Wire` say what
   parsing and printing compute; `Codec` holds the cursor parser and the printer as the program runs them, proved
   against that. `Grammar` says what it is for a message to stand in a packet, without a parser: names as section 4.1.4
   of RFC 1035 has them, around them the formats of section 4.1; parsing finds exactly that. `Forwarded` says what the
   upstream is really asked. Octets and UTF-8 are concrete.
2. **Filter** (`Rules`, `RuleLines`, `Blocklist`, `Build`). `Rules` says what one line of a list means and what a set of
   rules says of a domain, rule by rule; `RuleLines` states the notation from the author's side, which line adds which
   rule; `Blocklist` holds the hash sets and the label walk, proved to give the same verdict; `Build` ties a filter to
   the lines of its configuration. The regular-expression library is a pair of parameters: which patterns compile, and
   which match.
3. **List cache** (`FileName`, `ListCache`, `CacheProtocol`, `Confirmation`). `ListCache` holds the phases of one build
   over a cache and a disk that are updated in place; `CacheProtocol` interleaves the phases of any number of builds;
   `Confirmation` says what a 304 confirms among them.
4. **Upstream pool and handlers** (`Pool`, `PoolProtocol`, `LoneQuery`, `StrayReply`, `Handlers`, `ClientView`). `Pool`
   holds the pool and one query at a time; `PoolProtocol` interleaves the steps of any number of queries with an
   upstream that answers as it likes; `LoneQuery` ties the two together, `StrayReply` says when a foreign reply gets
   through; `Handlers` holds the two client paths, and `ClientView` says what a client gets, from the rules and the
   octets of the replies alone.
5. **Calendar** (`Calendar`). The closed-form civil date and the timestamps printed from it.

I/O enters as data: what a socket or an HTTP server did is a parameter of a method (`Exchange`, `Response`) or an event
of a protocol, the clock is a number, and a failed write is a flag.

## Where the code and its documentation differ

The model follows the code.

- The repository's README promises a header-only truncated reply (README.md:84). The code keeps the questions and the
  OPT records (src/upstream.rs:657-670); `TruncationReadsBack` states what is kept.
- It promises the last good copy on a network error or an HTTP error status (README.md:74). The code has no fallback
  when the body of a 200 response cannot be read (`CachedCopyIsUsedUnless`), and it takes the body of a refetch after a
  304 whatever its HTTP status (`DownloadThenMerge`).
- It promises that a late stray response never leaks into a later query (README.md:85). A socket is discarded after a
  timeout or an error, but a second reply to an already answered request stays in a pooled socket, and the id check
  does not stop it when the id is reused: `StrayReplyLeaks` is such a run, for every id. `MisledExactlyIfExposed` says
  exactly which queries can be misled; a socket that gets no stray reply keeps the promise whatever happens on the
  others (`EveryRunPrivateOn`).
- `save_to_disk` clears the dirty flag before it writes, so a failed write is not retried; `SaveSynchronizes` says
  exactly when a save leaves disk and memory in step.
- A list line that is a lone slash (leading `@@` aside) makes a slice ill-formed and panics;
  `PanicsExactlyOnLoneSlash` shows that nothing else does.
- A label of 64 to 191 octets is read as a label, and names have no 255-octet limit, against section 2.3.4 of RFC 1035.
  What the code calls the DO bit is the top bit of the OPT record's TTL field, while section 6.1.3 of RFC 6891 puts DO
  at 0x8000 of that field; DO here always means the code's bit.
- An NXDOMAIN reply announces one question but prints all of them; `NxdomainReadsBack` and `NxdomainBytes` say what
  that comes to.
- A label that contains a dot is split when its name is printed, so the upstream is asked for other labels than the
  client sent. `LabelsKept` and `ForwardedLabels` give the exact condition, `DottedLabelSplits` an input. As text, a
  name survives a trip in canonical form (`CanonFixpoint`, `NameRoundTrip`).
- The filter checks a name as it was read, while empty pieces are dropped when it is printed, so a query can pass the
  filter and ask the upstream for a blocked name. `FilteredAsPrinted` and `AskedAsFiltered` give the exact condition,
  `TrailingDotPasses` an input.
- A compressed query is printed without compression, so the request made of it may not fit the length prefix of the
  upstream's TCP frame: `RequestOutgrowsFrame`.
- Files that a prune cannot remove stay behind without metadata, as the result of the removal is ignored
  (`PrunedTracked`).
- When two builds overlap, a 304 may confirm a body other than the one the server meant
  (`OverlapConfirmsAnotherBody`). `ConfirmationServesCurrent` says exactly when it does not, at the merge, and
  `ConfirmedIsRequested` over the run from plan to merge.

## Model

| member | source | states |
|---|---|---|
| Names.ReadsExactlyChains | src/dns.rs:248-301 | reading a name succeeds exactly when a chain of in-bounds valid labels and at most 64 in-bounds pointers leads to a zero octet; it gives that chain's labels and resumes past the first pointer or the zero octet |
| Names.ScanBound | src/dns.rs:251-298 | no reading, successful or failed, examines more octets than one scan of the packet and one more for each jump left, 65 scans in all |
| Names.ExpansionBound | src/dns.rs:251-293 | in particular the labels read take fewer octets than 65 times the packet |
| Names.ReadNamesArePrintable | src/dns.rs:283-300 | a name that was read is UTF-8 and none of its dotted pieces exceeds 191 octets |
| Names.CanonFixpoint | src/dns.rs:303-311 | dropping empty labels keeps a name exactly when it has none |
| Names.CanonSameBytes | src/dns.rs:303-312 | a name and its canonical form are printed as the same octets |
| Names.ReadPrinted | src/dns.rs:248-312 | a printable name is read back in canonical form, with the right resumption point, wherever it was printed |
| Names.NameRoundTrip | src/dns.rs:248-312 | any UTF-8 name survives printing and reading if and only if its pieces have at most 191 octets and none is empty |
| Names.LabelsKept | src/dns.rs:248-312 | the labels of a name that was read are the labels printed, wherever they are printed, if and only if none of them holds a dot |
| Names.DottedLabelSplits | src/dns.rs:300-311 | the single label "a.b" reads as text "a.b" and is printed as two labels |
| Names.PlainIsLocal | src/dns.rs:95-103 | a pointer-free name means the same in its rdata slice as inside any packet |
| Names.Utf8Pieces | src/dns.rs:288-290 | joining labels with dots gives text exactly when every label is text |
| Bytes.Utf8SplitsAtAscii | src/dns.rs:288-305 | no UTF-8 character straddles an ASCII separator |
| Bytes.TextIsEncoded | src/dns.rs:288-289 | octets count as text exactly when they are the UTF-8 encodings of some scalar values, one after another |
| Codec.Cursor.ReadExact | src/dns.rs:21-23 | reads exactly n octets and moves past them, or fails at the end of the data |
| Codec.ParseName | src/dns.rs:248-301 | the loop over cursor, labels and jumps gives the specified name, position or error, and examines the specified octets, at most 65 times the packet |
| Codec.ParseHeader | src/dns.rs:21-32 | six big-endian fields from twelve octets, or a short read |
| Codec.ParseQuestion | src/dns.rs:54-61 | the specified question, position or error |
| Codec.ParseRecord | src/dns.rs:86-112 | the specified record, position or error, with the cursor put back after the alias; `Grammar.RecordReads` and `Grammar.AliasIsReadInPacket` say what that record is |
| Codec.ParseQuestions | src/dns.rs:175-178 | as many questions as announced, in order, or the first error |
| Codec.ParseRecords | src/dns.rs:180-193 | as many records as announced, in order, or the first error |
| Codec.ParseMessage | src/dns.rs:171-205 | header, four counted sections and the DO summary of the OPT records |
| Grammar.HeaderReads | src/dns.rs:21-32 | a header is read exactly as the six numbers that the first twelve octets spell |
| Grammar.QuestionReads | src/dns.rs:54-61 | a question is read exactly if a name stands there and type and class are the two numbers behind it |
| Grammar.RecordReads | src/dns.rs:86-112 | a record is read exactly if name, type, class, TTL, length and so many octets of rdata stand there, and its alias, for a CNAME only, is the name that stands where the rdata starts, or missing when none does |
| Grammar.AliasIsReadInPacket | src/dns.rs:95-103 | a CNAME's alias is the labels of any chain that starts at its rdata and runs through the whole packet, and is missing exactly when there is no such chain |
| Grammar.CloakedAliasIsFound | src/upstream.rs:898-940 | in a reply whose rdata is "tracker" and a pointer to offset 20, outside the rdata, the alias is tracker.site.com |
| Grammar.MessageReads | src/dns.rs:171-205 | a packet is read as a message if and only if the message stands in it: header, as many questions and records as announced one behind the other, and DO exactly if some OPT record has the top bit of its TTL |
| Codec.SerializeName | src/dns.rs:303-312 | length-prefixed non-empty pieces and a zero octet |
| Codec.SerializeHeader | src/dns.rs:34-43 | the octets that read back as the header |
| Codec.SerializeQuestion | src/dns.rs:63-68 | the octets of one question |
| Codec.SerializeRecord | src/dns.rs:114-122 | the octets of one record, its rdata length cut to 16 bits |
| Codec.DnsMessage.Serialize | src/dns.rs:207-224 | the whole message, with only the additional count recomputed |
| Codec.DnsMessage.AddOptRecord | src/dns.rs:226-245 | the first OPT is edited in place or one is appended and counted; all else unchanged |
| Wire.ParsedSize | src/dns.rs:171-193 | a parsed message has at least 5 octets of packet per question and 11 per record, and sections as long as announced |
| Wire.MessageReadBack | src/dns.rs:171-224 | a printable message followed by any octets is read back with canonical names and everything else kept |
| Wire.RoundTrip | src/dns.rs:171-224 | parsing undoes printing for every message whose counts, names, aliases and DO summary are as parsing would set them |
| Wire.ParsedPrintable | src/dns.rs:171-205 | whatever was parsed can be printed |
| Rewrite.UpstreamQuery | src/upstream.rs:397-402 | the octets sent upstream are the client's message with its OPT rewritten |
| Rewrite.OptAdvertisedShape | src/dns.rs:226-245 | exactly one record is touched: the first OPT (options and other TTL bits kept), or an OPT of its own at the end |
| Rewrite.OptAdvertisedTwice | src/dns.rs:226-245 | advertising twice is advertising once |
| Rewrite.ForUpstreamPrintable | src/dns.rs:226-245 | for any parsed packet of at most 65535 octets the additional count does not overflow and the rewrite can be printed |
| Rewrite.ForwardingKeepsMeaning | src/upstream.rs:397-402 | the upstream reads the client's id, flags, questions and records, names as canonical text, but for an OPT with size 1232 and DO |
| Forwarded.ForwardedLabels | src/upstream.rs:397-402 | the questions are forwarded with the client's own label sequences if and only if no question label holds a dot, and then read unchanged |
| Forwarded.FilteredAsPrinted | src/blocklist.rs:215-249 | under every list a name printed blocked is blocked as read, if and only if it has no empty piece, for any name asked for or met as an alias |
| Forwarded.SuffixCoversLabels | src/blocklist.rs:153-165 | a suffix rule covers a name read from dot-free labels exactly if its labels are the last labels of the name, whatever the letter case |
| Forwarded.AskedAsFiltered | src/upstream.rs:347-402 | a query that passes the filter is not blocked as the upstream reads it, whatever the lists, if and only if its first name has no empty piece |
| Forwarded.NothingBlockedIsAsked | src/upstream.rs:347-407 | nothing sent upstream asks first for a blocked name, as long as the client's first name has no empty piece |
| Forwarded.TrailingDotPasses | src/upstream.rs:347-407 | otherwise one can: a query whose single label is "ads.com." passes a list that blocks ads.com |
| Forwarded.ManyGrow | src/dns.rs:207-224 | a query of k + 1 questions that share one name by pointers grows from 19 + 6k to 30 + 7k octets |
| Forwarded.RequestOutgrowsFrame | src/upstream.rs:193-200 | so for k from 9358 to 10919 the client's packet fits two-octet framing and the request made of it does not |
| Rewrite.ForwardingTwiceIsOnce | src/upstream.rs:397-402 | forwarding a forwarded query gives the same octets |
| Rewrite.ForwardingGrowth | src/upstream.rs:538-543 | a query printed without compression grows by at most 11 octets |
| Rewrite.BuildNxdomain | src/upstream.rs:619-630 | the octets of the refusal made from the query |
| Rewrite.NxdomainReadsBack | src/upstream.rs:619-630 | a refusal re-parses as the client's id, flags 0x8183 and first question, and nothing else |
| Rewrite.NxdomainBytes | src/upstream.rs:619-630 | further questions of the query trail behind the announced one; the length is 12 plus that of all questions |
| Rewrite.Retain | src/upstream.rs:665 | exactly the OPT records remain, in order |
| Rewrite.TruncateResponse | src/upstream.rs:660-670 | a parsed reply is cut and printed; a reply that does not parse is an error |
| Rewrite.OnlyTcIsSet | src/upstream.rs:666 | cutting sets TC and keeps the other fifteen bits of the flags |
| Rewrite.KeepOptFilters | src/upstream.rs:665 | what is kept of two lists of records is what is kept of each, and of one record itself exactly if its type is 41 |
| Rewrite.TruncationReadsBack | src/upstream.rs:660-670 | a cut reply re-parses with its id, TC, its questions, no answers or authorities and exactly its OPT records |
| Rewrite.TruncationIsMarked | src/upstream.rs:649-670 | a cut reply has TC set and bears the id of the original |
| Rewrite.TruncationShrinks | src/upstream.rs:660-670 | cutting a reply that was printed without compression never lengthens it |
| Rewrite.TruncationFitsDefault | src/upstream.rs:657-670 | one question name of at most 255 octets and one root OPT with at most 230 octets of options fit 512 octets |
| Rules.ListRuleShape | src/blocklist.rs:52-137 | every stored rule has the shape its set promises, and is an allow rule exactly on an allow list or an exception line |
| Rules.CleanDomainShape | src/blocklist.rs:167-206 | an exact entry is non-empty, lower case, without blanks, comment sign or trailing dot, and never a local name |
| Rules.SuffixDomainShape | src/blocklist.rs:77-91 | a suffix entry is non-empty, lower case, without options, leading bars or trailing dot |
| Rules.PanicsExactlyOnLoneSlash | src/blocklist.rs:97-98 | reading a line panics if and only if it is a lone slash, blanks and leading `@@` aside, read as AdBlock |
| Rules.RulesCanBeWritten | src/blocklist.rs:52-137 | some line of a block list adds a rule if and only if the rule has the shape of its set, with an exact entry in hosts form, a suffix in AdBlock form and a pattern between slashes |
| RuleLines.SuffixLineReads | src/blocklist.rs:69-96 | an AdBlock line of two bars, x, trailing dots, carets and then any options adds the suffix x in lower case, as an allow rule behind `@@` or on an allow list |
| RuleLines.PatternLineReads | src/blocklist.rs:97-104 | a pattern between slashes, behind `@@` or not, is added exactly if it compiles |
| RuleLines.BareLineReads | src/blocklist.rs:167-206 | a bare line stands for a word exactly if it bears no mark of a cosmetic rule and that is the last word before its comment, trailing dots aside, and no local name |
| RuleLines.BareLineAdds | src/blocklist.rs:62-66 | a hosts line, or an AdBlock line without marks, adds exactly the word it stands for, in lower case |
| RuleLines.ExceptedLineAdds | src/blocklist.rs:68-112 | the same behind `@@`, as an allow rule on any list |
| RuleLines.CosmeticLineAddsNothing | src/blocklist.rs:172-178 | a line with the mark of a cosmetic rule adds nothing, unless it starts as an exception, a suffix or a pattern does |
| RuleLines.RegexLineReads | src/blocklist.rs:282-314 | a line of a regex list adds what stands before its first ` -- ` and blanks, without the slashes around it, if that compiles |
| RuleLines.ManualAllowReads | src/main.rs:185-187 | a manual allow entry is added whole, in lower case, without trailing dots |
| RuleLines.ManualPatternReads | src/main.rs:188-199 | a manual pattern is added as it stands, exactly if it compiles |
| RuleLines.AutoReadsAsAdBlock | src/blocklist.rs:126-137 | detecting the format of a line never changes what it adds |
| RuleLines.BlanksDoNotMatter | src/blocklist.rs:52 | blanks around a line of a list change nothing |
| RuleLines.CommentsAddNothing | src/blocklist.rs:53-55 | empty lines and lines that start with `!` or `#` add nothing |
| Rules.VerdictOfSet | src/blocklist.rs:215-249 | a scan depends on the set of rules only |
| Blocklist.BlockList.Insert | src/blocklist.rs:60-112 | one rule goes into its own set or vector; the other five are unchanged |
| Blocklist.BlockList.ParseLineMode | src/blocklist.rs:46-118 | the index changes exactly as the line's outcome says |
| Blocklist.BlockList.ParseAdBlock | src/blocklist.rs:68-115 | exception mark, suffix, pattern or bare domain, as the line's outcome says; `RuleLines` says which rule that is |
| Blocklist.BlockList.ParseAutoMode | src/blocklist.rs:126-137 | the detected format decides how the line is read |
| Blocklist.BlockList.ParseRegexLine | src/blocklist.rs:282-314 | trailing comment and slashes are stripped and the pattern compiled; bad patterns are skipped |
| Blocklist.BlockList.ParseManual | src/main.rs:180-199 | an entry of the configuration, read as the configuration section it comes from |
| Blocklist.BlockList.Load | src/blocklist.rs:265-314 | after a list body the index holds exactly the old rules and those of its lines; it panics exactly when a line does |
| Blocklist.BlockList.Merge | src/blocklist.rs:318-325 | the sets are united and the vectors appended |
| Blocklist.MergedIndexes | src/blocklist.rs:318-325 | merging two indexes gives an index of both rule sequences together |
| Blocklist.BlockList.Check | src/blocklist.rs:215-249 | the lookup, on the lower-cased name, with the rule that decided it |
| Blocklist.SuffixMatch | src/blocklist.rs:153-165 | the label walk gives the first suffix hit |
| Blocklist.CoversStep | src/blocklist.rs:157-163 | a suffix covers a name if it equals it or covers what is left after the first label |
| Blocklist.SuffixHitIsLongest | src/blocklist.rs:153-165 | the walk finds a suffix exactly when one equals the name or ends it behind a dot, and then the longest |
| Blocklist.FindPattern | src/blocklist.rs:229-233 | the first pattern of a vector that matches |
| Blocklist.FirstMatchFinds | src/blocklist.rs:229-247 | a pattern is found exactly when one matches |
| Blocklist.StoredRuleShape | src/blocklist.rs:265-314 | after any run of list parsing every rule held has the shape of its set, but for hand-written exact allow entries, which are lower case as well |
| Blocklist.StoredRuleFires | src/blocklist.rs:215-249 | every exact or suffix rule held fires on its own text in any letter case: allowed, or blocked if it is a block rule |
| Blocklist.LookupIsScan | src/blocklist.rs:215-249 | the lookup gives the verdict of a rule-by-rule scan, allow first, and names a held rule that fired |
| Blocklist.RuleNamed | src/blocklist.rs:225-248 | which rule is named: on each side an exact entry before the suffixes and these before the patterns, of the suffixes the longest and of the patterns the first |
| Blocklist.LookupComplete | src/blocklist.rs:215-249 | a stored rule that fires is never overlooked: the verdict is its own or that of an allow rule |
| Blocklist.Build | src/main.rs:174-262 | the built index holds exactly the rules of all bodies, or the build panics exactly when a line does |
| Blocklist.RulesOfAllMembers | src/main.rs:180-262 | a rule is in a configuration exactly when one of its lines adds it |
| Blocklist.ConfigurationIsASet | src/blocklist.rs:265-325 | configurations whose lines add the same rules filter alike: order, repetition and split into lists do not matter |
| Build.AppendLists | src/main.rs:227-262 | the lists of one kind are read in configuration order, and those without a body skipped |
| Build.LinesAre | src/blocklist.rs:265-269 | the lines of a body are its pieces between line feeds, each without one carriage return right before its line feed, and no empty piece at the end |
| Build.CreateBlocklist | src/main.rs:174-262 | the filter holds a rule exactly if the configuration says it: some entry of the four manual fields, or some line of the body of a URL of the four kinds of list, read as that kind is, adds it; the build panics exactly if some line does |
| Build.BuildIsConfigured | src/main.rs:174-262 | the same of the specified bodies: no field, list, URL or line is left out and none is added |
| Build.VerdictIsConfigured | src/main.rs:174-262 | a name is allowed if some configured line adds an allow rule that fires on it, else blocked if some adds a block rule that does, else forwarded |
| Build.BodyIsAccountable | src/main.rs:201-262 | a rule of the filter is a configured entry, or a line delivered by a URL of one of the four configured kinds of list and read as that kind is |
| Build.VerdictsAreAccountable | src/main.rs:174-285 | a published filter gives every name the verdict of a scan, and the rule it names is a configured entry or came from a list of the kind that adds such rules, delivered by its own URL |
| FileName.PrimeUndone | src/blocklist.rs:384 | multiplying by the FNV prime modulo 2^64 is undone by multiplying by 0xce965057aff6957b, on both sides |
| FileName.StepReversible | src/blocklist.rs:382-385 | one FNV-1a step is a bijection on 64-bit values |
| FileName.SuffixKeepsCollisions | src/blocklist.rs:381-385 | a common suffix neither creates nor removes a collision |
| FileName.OneOctetSeparates | src/blocklist.rs:381-385 | URLs of one length that differ in exactly one octet never collide |
| FileName.UrlToFilename | src/blocklist.rs:360-387 | the hash loop computes the specified file name |
| FileName.SameFile | src/blocklist.rs:360-387 | two URLs share a file exactly when their readable prefixes and their hashes agree |
| FileName.OneOctetSeparatesFiles | src/blocklist.rs:360-387 | so URLs that differ in exactly one octet have files of their own |
| FileName.FileIsReadable | src/blocklist.rs:365-386 | a file name has 21 to 121 characters, all letters, digits, dots, underscores or hyphens |
| FileName.KnownHashes | src/blocklist.rs:380-385 | the hash of the empty text is cbf29ce484222325 and that of "a" is af63dc4c8601ec8c |
| FileName.UrlFileReads | src/blocklist.rs:360-387 | a file name is the first hundred characters of the URL behind its scheme, each unsafe one an underscore, then an underscore, the hash in sixteen hexadecimal digits and `.txt` |
| ListCache.CachedCopyIsUsedUnless | src/blocklist.rs:498-549 | with a body on disk a download comes to nothing exactly when a 200 response's body cannot be read |
| ListCache.DownloadThenMerge | src/blocklist.rs:498-549 | what a download and its merge leave in build, file and entry: a fetched body (200, or the repeat after a 304 without a file, whatever its status) replaces all three or leaves the build without; otherwise the copy on disk is built and only a 304 renews the entry |
| ListCache.FreshComesFrom | src/blocklist.rs:519-544 | a new body and its ETag come from one response: a 200, or the repeat after a 304 without a file |
| ListCache.CachedLists.GetIfFresh | src/blocklist.rs:575-587 | the body of an entry younger than the interval whose file is there; `CacheProtocol.DueIsPlanned` says when there is none |
| ListCache.CachedLists.PlanFetches | src/blocklist.rs:591-610 | the specified bodies at hand and downloads to make; `CacheProtocol.DueIsPlanned` says which these are |
| ListCache.PlanDealsUrls | src/blocklist.rs:591-610 | planning deals every URL, with order and repetitions, either to fresh bodies or to downloads that carry its ETag |
| ListCache.CachedLists.MergeDownload | src/blocklist.rs:670-713 | what one download does to metadata, files and the build |
| ListCache.CachedLists.MergeDownloads | src/blocklist.rs:660-715 | the downloads are merged one after another |
| ListCache.UsableIsMerged | src/blocklist.rs:660-715 | a stored, confirmed or stale download contributes a body whatever else is merged |
| ListCache.UsableListIsBuilt | src/main.rs:216-225 | a URL has a body in the build exactly if it was fresh or has a usable download (only-if when no two URLs share a file) |
| ListCache.MergeInSequence | src/blocklist.rs:660-715 | downloads are merged one after another, each into what those before it left, and add their bodies in this order |
| ListCache.LastBodyWins | src/main.rs:223-225 | of several bodies for one URL the build takes the last, those merged after those at hand |
| ListCache.CachedLists.Prune | src/blocklist.rs:719-735 | exactly the entries of unconfigured URLs go, with their files unless they cannot be removed; the cache is dirty if any did |
| ListCache.CachedLists.SaveToDisk | src/blocklist.rs:738-749 | a dirty cache is written if the disk takes it, and is clean either way |
| ListCache.SaveSynchronizes | src/blocklist.rs:738-749 | a save leaves disk and memory in step exactly when it wrote, or they were in step already |
| CacheProtocol.SoundStep | src/main.rs:216-282 | every phase of every build keeps the cache sound |
| CacheProtocol.EveryRunSound | src/main.rs:287-536 | under any interleaving, a metadata entry whose file exists holds the ETag of a response that delivered exactly that body, and every file, build and published filter holds bodies of its own URLs |
| CacheProtocol.StartsSound | src/blocklist.rs:754-758 | the first start is sound, and so is a restart of any run stopped with a clean flag and disk in step |
| CacheProtocol.ShutdownIsSound | src/main.rs:94-103 | a run whose saves succeed, ended by the shutdown save, restarts soundly with the metadata it had |
| CacheProtocol.EveryRunAccounted | src/main.rs:216-222 | in every run each URL of a build is fresh, to be downloaded, downloaded, or lost with a download that died |
| CacheProtocol.NoListDropped | src/main.rs:216-225 | in every build a URL has a body exactly if it was fresh or a download of it is usable; one without was lost or has a download that brought nothing |
| CacheProtocol.PublishedIsMerged | src/main.rs:216-317 | whatever other builds do meanwhile, what a build publishes is what it merged, and it stays until the next publication |
| CacheProtocol.PrunedTracked | src/blocklist.rs:719-735 | a prune leaves no file without metadata exactly if every file it had to remove would go |
| CacheProtocol.EveryRunTracked | src/blocklist.rs:660-735 | in every run in which removals succeed each body file belongs to a metadata entry |
| CacheProtocol.EveryRunSynced | src/blocklist.rs:660-759 | when saves succeed, a clean flag means saved and in-memory metadata agree, at every moment |
| CacheProtocol.PruneKeepsConfigured | src/main.rs:270-282 | after a build's prune and save only configured URLs have metadata, none of them lost its entry or body, and the others lost their entries, with the files exactly as far as these could be removed; the cache is clean, and the metadata is saved exactly if anything changed and the write succeeded |
| CacheProtocol.MergeRenews | src/blocklist.rs:660-715 | an entry changes exactly by a stored body or a confirmation, and is then as of now |
| CacheProtocol.MergeMarksExactly | src/blocklist.rs:660-715 | a merge leaves the cache dirty exactly if it was, a body was stored or an entry was confirmed |
| CacheProtocol.RenewedStaysFresh | src/blocklist.rs:575-610 | over any run whose prunes keep it, a list renewed by a stored body, its first included, or by a confirmation is fresh and has no download planned while the interval lasts |
| CacheProtocol.FetchedStep | src/blocklist.rs:660-715 | a retained entry changes only in a merge that renews it |
| CacheProtocol.FetchTimeNeverFalls | src/blocklist.rs:660-735 | over any run the fetch time of a URL never goes back |
| CacheProtocol.StaleUntilRenewed | src/blocklist.rs:480-482 | a list whose downloads bring only stale copies and failures stays due for download |
| CacheProtocol.StaleIsPlanned | src/blocklist.rs:591-610 | a configured list has a download planned exactly when it is not fresh |
| CacheProtocol.DueIsPlanned | src/blocklist.rs:575-610 | a configured list has a download planned exactly if it has no entry, its entry is as old as the interval (an entry from the future counts as new), or its file is missing, and then with the ETag of its entry; else its body is the file |
| CacheProtocol.DueAgain | src/blocklist.rs:575-610 | over any run in which nothing renews a list, once the clock is an interval past its fetch time every plan has a job for it |
| Confirmation.ConfirmationServesCurrent | src/blocklist.rs:686-707 | a confirmed body is what the entry's ETag describes; it is what the server meant if and only if that is still the ETag sent; when the entry has vanished a body left behind is one of the same URL, and none is left if every file has its metadata |
| Confirmation.ConfirmedIsRequested | src/main.rs:216-222 | if between a build's plan and its merge nobody stores a new body for a URL or prunes it, the body built was delivered under the ETag its request carried |
| Confirmation.OverlapConfirmsAnotherBody | src/main.rs:216-222 | otherwise it need not be: a run of two overlapping builds |
| Pool.Upstream.TakeUdp | src/upstream.rs:85-92 | the most recently returned socket leaves the pool |
| Pool.Upstream.ReturnUdp | src/upstream.rs:130-134 | a socket is kept only below the cap of 16 |
| Pool.Upstream.TakeTcp | src/upstream.rs:148 | the most recently returned connection leaves the pool |
| Pool.Upstream.ReturnTcp | src/upstream.rs:180-185 | a connection is kept only below the cap of 8 |
| Pool.Upstream.UdpQuery | src/upstream.rs:84-137 | result and pool of one UDP query: the socket is returned only after a reply with the query's id |
| Pool.Upstream.TcpQuery | src/upstream.rs:143-177 | result and pool of one TCP query: a pooled connection that fails is replaced once by a fresh one |
| Pool.UdpSocketReturns | src/upstream.rs:84-137 | a UDP query succeeds exactly with a socket and a reply that bears its id; the socket goes back only then, and only to a pool of fewer than 16 |
| Pool.TcpConnectionReturns | src/upstream.rs:143-185 | a TCP query succeeds exactly if the pooled connection answers, or else a fresh one; the one that answered goes back to a pool of fewer than 8, any other is gone |
| PoolProtocol.SafeStep | src/upstream.rs:84-213 | every step of every query keeps ownership, caps and retry bounds |
| PoolProtocol.EveryRunSafe | src/upstream.rs:84-213 | in every run each socket has exactly one owner, pools hold at most 16 and 8 of their own transport, a UDP reply is accepted only with its query's id (0 for fewer than two octets), and a TCP query is tried at most twice, the second time on a fresh connection |
| PoolProtocol.EveryRunPrivateOn | src/upstream.rs:84-213 | a socket that gets no stray reply has nothing under way while pooled and brings each borrower its own reply, whatever happens on all other sockets |
| PoolProtocol.EveryHonestRunPrivate | src/upstream.rs:84-213 | with at most one reply to a request, that holds of every socket |
| PoolProtocol.RepliesReachTheirQuery | src/upstream.rs:36-48 | from an empty pool, each finished query has a reply with its id (UDP), and its own reply if the one socket that brought it got no stray reply |
| StrayReply.MisledExactlyIfExposed | src/upstream.rs:84-177 | a query that has checked out its socket can be given a foreign reply, by an upstream honest from then on, if and only if a foreign reply it will accept heads the inbox, or the inbox is empty and another query's request is unanswered |
| StrayReply.StrayReplyLeaks | src/upstream.rs:95-128 | for every id and socket, one duplicated datagram exposes the next query with the same id, which can then end with the other's reply |
| LoneQuery.AloneIsUdpOutcome | src/upstream.rs:84-137 | whatever the network does to it, a UDP query that no other interleaves leaves pool and result as `UdpQuery` says, with its own reply |
| LoneQuery.AloneIsTcpOutcome | src/upstream.rs:143-213 | the same for a TCP query and `TcpQuery`, through the failed pooled connection and the one retry |
| Handlers.FindsCloaked | src/upstream.rs:420-444 | whether some CNAME answer of the reply names a blocked target; a reply that does not parse hides nothing |
| Handlers.FindClientUdpSize | src/upstream.rs:382-391 | the size of the first OPT record if it is between 1 and 4096, else 512 |
| Handlers.HandleUdpQuery | src/upstream.rs:331-471 | what a UDP client receives, and what the upstream was asked, if anything; `ClientView.UdpClientGets` says what that is |
| Handlers.UdpAnswered | src/upstream.rs:331-471 | a UDP client gets an answer exactly if its query parses and is refused, or the last upstream reply is refused, fits, or parses and can be cut |
| Handlers.RefusalFits | src/upstream.rs:361-363 | a refusal over UDP is never cut and fits the client exactly if the query's questions, printed in full, do |
| Handlers.SameVerdict | src/upstream.rs:347-590 | on the same query, filter and final upstream reply, be it the UDP reply or the TCP one fetched after a truncated one, both transports decide alike to relay or to refuse; over UDP a relayed reply is cut to fit or, if it does not parse, dropped |
| ClientView.UdpClientGets | src/upstream.rs:331-471 | a query whose first name the rules block is refused and not forwarded; else a final reply with an alias they block is refused; else the client gets that reply unchanged if it is no longer than the class of its first OPT record when that is 1 to 4096, or than 512, cut if it is longer and parses, and nothing if it is longer and does not |
| ClientView.TcpClientGets | src/upstream.rs:501-577 | over TCP the same verdicts, and a reply that is not refused comes unchanged, however long |
| Handlers.ReplyBearsId | src/upstream.rs:331-471 | every UDP reply bears the client's id if the upstream's replies bear the id they were asked with |
| Handlers.RelayedFitsOrIsMarked | src/upstream.rs:446-457 | a relayed UDP reply fits the client's size or has TC set |
| Handlers.FramesReadBack | src/upstream.rs:484-499 | messages of at most 65535 octets survive framing, in order |
| Handlers.FrameStarts | src/upstream.rs:634-640 | a frame is the length in two octets, most significant first, and the message |
| Handlers.FramingIsFaithful | src/upstream.rs:634-646 | framing carries a message if and only if its length fits two octets |
| Handlers.AnswerTcpQuery | src/upstream.rs:501-577 | the answer to one query of a TCP session, and what the upstream was asked, if anything |
| Handlers.HandleTcpSession | src/upstream.rs:473-591 | the octets written over a whole session and how it ends |
| Handlers.EverySession | src/upstream.rs:480-590 | on any octets, a session answers some framed queries at the head of the stream with exactly one framed reply each, in order, and ends on what follows for the reason it gives |
| Handlers.SessionPrefix | src/upstream.rs:480-590 | queries that are answered get their replies whatever follows them |
| Handlers.AnswerableIsAnswered | src/upstream.rs:501-577 | a query is answered if and only if it parses and is refused outright or the upstream succeeds |
| Handlers.OneReplyPerQuery | src/upstream.rs:480-590 | queries that parse, with an upstream that succeeds, get exactly one framed reply each, in order, and nothing else |
| Handlers.AnswerFitsFrame | src/upstream.rs:619-646 | a TCP answer fits its frame exactly when it is relayed or the query's questions fit when printed |
| Calendar.ClosedFormIsCalendar | src/stats.rs:104-118 | day n is the date reached by n single-day steps of the proleptic Gregorian calendar from 1970-01-01 |
| Calendar.YearOfEraCorrect | src/stats.rs:109-112 | the year of the era is 0 to 399 and its first day is at or before the given day, by less than a year |
| Calendar.MonthInRange | src/stats.rs:113-114 | the month counted from March is 0 to 11 and holds the given day |
| Calendar.DayInRange | src/stats.rs:114-116 | months are 1 to 12 and days 1 to 31 |
| Calendar.EveryDateOnce | src/stats.rs:106-118 | every valid date from 1970-01-01 on is given by exactly one day number |
| Calendar.StampsSortByTime | src/stats.rs:90-101 | up to year 9999, printed seconds compare as strings exactly as in time, and are equal only for equal seconds |
| Calendar.StampReadsBack | src/stats.rs:90-101 | up to year 9999 a printed timestamp, read digit by digit, gives back the calendar date and the time of day it was printed from |
| Calendar.TimestampsSortByTime | src/stats.rs:82-102 | the same for non-zero journal timestamps in microseconds |
| Calendar.TimestampReads | src/stats.rs:82-89 | decimal digits, behind a plus sign or not, that spell a non-zero number of microseconds of at most 64 bits are shown as its whole seconds, anything else as nothing |
| Calendar.YearTenThousandSortsEarly | src/stats.rs:98-101 | the bound is tight: year 10000 sorts before 9999 |

## Left out

- Codec.Cursor.ReadExact: says nothing of the position after a failed read, which depends on the standard library's version; every caller gives up.
- Codec.ParseName: says nothing of the cursor's position after a failed read; the only caller that goes on after one puts the cursor back itself.
- Codec.ParseMessage: a message is a value once parsed; the class DnsMessage models only the edits made in place.
- Rewrite.ForwardingKeepsMeaning: compares names as text, as the program does; `Forwarded.ForwardedLabels` compares labels, of the questions only.
- Forwarded.RequestOutgrowsFrame: stops at the misframed request; what the upstream makes of it is not modelled.
- Rules.ListRuleShape: letters fold and blanks count as ASCII has them; the code folds and trims the rest of Unicode as well.
- Blocklist.BlockList.Check: names the rule that decided instead of formatting it as text for the log.
- FileName.OneOctetSeparatesFiles: covers one differing octet; that configured URLs have distinct files in general is an assumption of the cache proofs, since a 64-bit hash can collide.
- CacheProtocol.EveryRunSound: writes are all or nothing; torn files and a crash between merge and save are not modelled.
- CacheProtocol.PruneKeepsConfigured: speaks of the building configuration; a refresh begun under an old configuration may publish after a reload.
- Pool.Upstream.UdpQuery: one query at a time; other queries' steps are interleaved in `PoolProtocol` only.
- PoolProtocol.EveryRunSafe: a UDP reply cut at the 1232-octet receive buffer and TCP framing inside a connection are not modelled; a reply arrives whole.
- Handlers.HandleTcpSession: writes to the client succeed and reads end only where the input does; timeouts are part of the environment.
- Calendar.ClosedFormIsCalendar: integers are unbounded; day numbers beyond the signed 64-bit range do not arise from a 64-bit microsecond count.
- Sockets, TLS, HTTP and task scheduling beyond the interleavings of the two protocols.
- The regular-expression engine, which is a parameter of the filter.
- Looking up list hosts and choosing an HTTP client (`resolve_a`, `client_for_url`, `client_key`): thin wrappers.
- JSON and TOML formats, configuration loading and its change log, command line, query logging, statistics filters and summaries: I/O or easy.
