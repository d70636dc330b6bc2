# dnstop-rs: the DNS answer pipeline, modelled in Dafny

dnstop-rs watches DNS responses on a network interface. For each decoded
response that carries a question it prints the queried name together with the
interesting answer data — A and AAAA addresses, CNAME targets, and the address
hints of HTTPS records, tagged "HTTPS ECH" when the record advertises an
Encrypted Client Hello configuration — and counts how often each name is seen.
The library (`src/lib.rs`) and the stand-alone binary (`src/main.rs`) contain
two versions of this pipeline. They differ in where they put the primary
marker "=>" and in when they dump the frequency table.

The model covers the part after the wire decoder:

- `Text` — `trim_end_matches('.')`, with an independent characterisation
  (`IsDotTrimmed`) and a proof that the trimmed form is unique.
- `Dns` — abstract decoded messages: answers, rdata (A, AAAA, CNAME, HTTPS,
  SVCB, other), SVCB service parameters (section 7.3 of RFC 9460 for the
  address hints), and the ECH tag.
- `Records` — `QueryResult::to_simple_records` and `QueryResult::show` in the
  library. `RecordsFrom` is the reference definition: the in-order
  concatenation of the records each answer contributes. `ToSimpleRecords` copies
  the Rust loops, including the single mutable `is_first` flag, and is proved
  equal to `RecordsFrom`.
- `Display` — `show_rdata` and `show_query_result` in the binary, as functions
  returning lines, plus loop-by-loop methods proved equal to them.
- `Divergence` — the exact condition under which both display paths print the
  same lines, and a concrete response on which they differ.
- `Capture` — the post-decode half of `process`. It is the same in both files
  (src/lib.rs:124-148 and src/main.rs:93-117), so it is modelled once.
- `Stats` — the per-name table update, its sum, and its tally over a history.
- `Monitor` — one iteration of each capture loop: the lines it prints, how it
  updates the counters, and when it dumps the table. Invariants are proved over
  whole event traces.

The loop-by-loop methods of both modules return the records or lines an inner
loop emits, and the caller appends them. The Rust code pushes onto one shared
vector (or prints directly); the resulting sequence is the same.

Printed output is modelled as `Line(name, arrow, tag, data)` values.
`Lines.Render` gives the text `println!` writes for each one, so properties of
the arrow are stated on a field and never by parsing strings.

Three details of the code are easy to misread:

- The primary flag belongs to the first *answer*, not to the first emitted
  record (src/lib.rs:105). If the first answer contributes nothing, no record
  is primary.
- The query name loses *every* trailing dot, not just the root-label dot
  (`trim_end_matches('.')`, src/lib.rs:133).
- Only `RData::HTTPS` is expanded (src/lib.rs:65). Plain SVCB answers fall into
  the `_ => {}` arm and are skipped.

## Model

| member | source | states |
|---|---|---|
| Lines.Render | src/lib.rs:116-118 | the printed text of a line is its name, a space, its arrow and a space, then the tag and a space when there is one, then the data, and nothing else (the same layout as the println! formats at src/main.rs:38-69) |
| Text.TrimEndDots | src/lib.rs:56-57 | the result is a prefix of the input, only dots follow it in the input, and it does not end in a dot |
| Text.DotTrimmedUnique | src/lib.rs:133 | any prefix with only dots after it and no trailing dot is exactly the trimmed name, so the characterisation determines the result |
| Dns.EchTag | src/lib.rs:69-73 | the tag is "HTTPS ECH" exactly when some parameter key is EchConfig, and "HTTPS" exactly when none is |
| Dns.HintIpsAppend | src/lib.rs:74-100 | hint addresses follow parameter order and then list order: the hints of concatenated parameter lists are the concatenated hints |
| Dns.HintIpsMembership | src/lib.rs:74-100 | an address is among the hints exactly when some Ipv4Hint or Ipv6Hint value lists it |
| Records.AnswerRecords | src/lib.rs:37-103 | A/AAAA/CNAME give exactly one untagged record (the CNAME target with trailing dots trimmed); HTTPS gives one record per hint, in order, all tagged with the ECH tag; SVCB, other rdata and missing rdata give none; every record carries the query name; only record 0 can be primary, and only for the first answer |
| Records.RecordsFrom | src/lib.rs:33-109 | every record carries the query name; a record is primary exactly when it is at index 0 and the first answer contributes something |
| Records.RecordsFromAppend | src/lib.rs:36-106 | the output is the concatenation of per-answer outputs, and the primary flag is available only to the very first answer |
| Records.AnswerSegment | src/lib.rs:36-106 | answer j's records sit at the offset reached by the answers before it, and are exactly what answer j contributes on its own |
| Records.SilentAnswer | src/lib.rs:37-103 | appending an answer with no rdata, or with rdata other than A/AAAA/CNAME/HTTPS, leaves the output unchanged |
| Records.PrimaryRecord | src/lib.rs:35-105 | at most one record is primary; if one is, it is record 0 and the first record of answers[0]; if answers[0] contributes nothing, no record is primary |
| Records.PushHintRecords | src/lib.rs:76-85 | the inner address loop emits one tagged record per address, in order, marks only the first one primary (and only if the flag was set), and clears the flag once it has emitted anything |
| Records.PushHttpsRecords | src/lib.rs:65-101 | the HTTPS arm emits exactly the hint records of all parameters, in order, with the ECH tag, and clears the flag if it emitted anything |
| Records.ToSimpleRecords | src/lib.rs:33-109 | the loop with its single mutable is_first produces exactly the reference concatenation RecordsFrom |
| Records.ShowLines | src/lib.rs:111-121 | show prints one line per extracted record, with the record's name, tag and data, and "=>" exactly on the records flagged primary |
| Records.ShowArrows | src/lib.rs:111-121 | show prints one line per record, with the record's name, tag and data; "=>" appears exactly on line 0 when the first answer contributed, and "->" appears everywhere else |
| Display.RdataLines | src/main.rs:35-80 | A/AAAA/CNAME print exactly one untagged line with the passed arrow (CNAME trimmed); HTTPS prints one tagged line per hint, ignores the passed arrow, and marks its own first hint "=>"; other rdata prints nothing |
| Display.QueryResultLines | src/main.rs:82-91 | show_query_result prints as many lines as the library extracts records, all under the query name, and its first line is "=>" whenever the first answer prints anything |
| Display.QueryLinesLength | src/main.rs:82-91 | the binary prints exactly as many lines as the library extracts records |
| Display.QueryLinesAppend | src/main.rs:84-90 | the printed lines are the concatenation of the lines of each answer, and "=>" is passed only to the head of the whole list |
| Display.AnswerLinesSegment | src/main.rs:83-90 | answer j prints show_rdata output with "=>" when j is 0 and "->" otherwise, even when answer 0 had no rdata |
| Display.NoPrimaryAfterSilentStart | src/main.rs:83-90 | if the first answer has no rdata and no answer is a hinted HTTPS record, no line is marked "=>" |
| Display.PrintHints | src/main.rs:59-65 | the inner HTTPS loop prints one tagged line per address, marks only the first line "=>" (and only if the local flag is still set), and clears the flag once it has printed anything |
| Display.ShowRdata | src/main.rs:35-80 | the loop-by-loop show_rdata prints exactly RdataLines |
| Display.ShowQueryResult | src/main.rs:82-91 | the loop-by-loop show_query_result, which clears its flag after every answer, prints exactly QueryResultLines |
| Divergence.AnswerAgreement | src/main.rs:49-76 | one answer prints identical lines on both paths unless it is a hinted HTTPS answer that is not first, in which case the two paths differ |
| Divergence.ShowAgreement | src/main.rs:82-91 | the two paths agree on a list of answers exactly when every hinted HTTPS answer is the first answer |
| Divergence.LibMainAgree | src/main.rs:56-70 | the library's show and the binary's show_query_result print the same lines exactly when no answer after the first is a hinted HTTPS record |
| Divergence.LibMainSameLength | src/main.rs:35-91 | both display paths always print the same number of lines |
| Divergence.ExampleLibLines | src/lib.rs:111-121 | for an A answer followed by a one-hint HTTPS answer, the library prints "example.com => 192.0.2.1" and then "example.com -> HTTPS 192.0.2.2" |
| Divergence.ExampleBinLines | src/main.rs:82-91 | for the same response, the binary prints "example.com => 192.0.2.1" and then "example.com => HTTPS 192.0.2.2" |
| Divergence.DivergenceExample | src/main.rs:56-63 | on that response the two paths print different lines: the hint line is "->" in the library and "=>" in the binary |
| Capture.Observe | src/lib.rs:128-141 | no question gives no observation; otherwise the name is the first question's name with trailing dots trimmed, and the records are all the answers unchanged |
| Capture.Process | src/lib.rs:124-147 | a frame of at least 42 bytes gives an observation exactly when its payload after byte 42 decodes to a message with a question; decode errors give none |
| Capture.ObservedNameTrimmed | src/lib.rs:132-133 | the observed name never ends in a dot and is left unchanged by trimming again |
| Capture.RootNameBecomesEmpty | src/lib.rs:133 | a query for "." (or for any all-dot name) is observed under the empty name |
| Stats.Increment | src/lib.rs:176-179 | the observed name's count goes up by one (it is inserted with 1 if it was absent), the key set gains only that name, and every other count is unchanged |
| Stats.IncrementSum | src/lib.rs:175-179 | one update adds exactly one to the sum of all counts |
| Stats.TallyCounts | src/lib.rs:176-179 | after a history of observations, the table holds exactly the names seen, each with its number of occurrences |
| Stats.TallySum | src/lib.rs:175-179 | after a history of observations, the counts sum to the number of observations |
| Stats.SingleNameTally | src/main.rs:145-148 | a history that repeats one name leaves a table with exactly one entry |
| Monitor.RunStep | src/lib.rs:172-189 | an observation is shown with the library's line format and counted in total_counts and in the table; other events change nothing; the table is dumped exactly when total_counts is a multiple of 10; the step preserves "counts sum to total_counts" |
| Monitor.Run | src/lib.rs:167-190 | the library loop over a trace of events counts at most one observation per event, and its table always sums to total_counts |
| Monitor.RunCounts | src/lib.rs:167-189 | after any trace of events, total_counts equals the number of observations and the table equals their tally |
| Monitor.RunInvariant | src/lib.rs:167-179 | after any trace of events, the counts sum to total_counts, and every name is counted exactly as often as it was observed |
| Monitor.IdleIterationDumps | src/lib.rs:184-189 | an iteration with no observation still dumps the unchanged table while total_counts is a multiple of 10 |
| Monitor.MainStep | src/main.rs:142-156 | an observation is shown with the binary's line format and counted in the table; the number of distinct names grows by at most one; the table is dumped exactly when the number of distinct names is a multiple of 10 |
| Monitor.MainRun | src/main.rs:138-157 | the binary loop over a trace of events never holds more distinct names than there were observations |
| Monitor.MainRunCounts | src/main.rs:138-149 | the binary's table after any trace equals the library's table |
| Monitor.SnapshotPoliciesDiffer | src/main.rs:154-155 | if the observations are a positive multiple of 10 and all for one name, the library dumps the table and the binary does not |
| Monitor.MainDumpRepeats | src/main.rs:154-155 | in the binary, once a dump is due it repeats on every iteration that adds no new name |

## Left out

- Capture device lookup, opening the capture, the capture filter, `next_packet`, and fatal capture errors (src/lib.rs:150-171, 184-185; src/main.rs:119-141) are I/O against libpcap. Events are given to the loop model as a sequence of frames and timeouts.
- `Message::from_bytes` and the rest of the trust_dns_proto wire decoding are foreign code. The decoder is a function parameter `decode`, and a decode error is `None`. The `eprintln!` of that error is not modelled.
- `ip.to_string()` and `Name::to_string()` are foreign formatting. Addresses and names are opaque strings.
- `println!` and `dbg!` are returned as values: lines from `Lines.Print`, and the table itself for a dump. The `Debug` text of a `BTreeMap` is not modelled.
- `crate::db::insert_query_result` and the `Arc<Mutex<Connection>>` lock (src/lib.rs:180-181) are left out. The insert function is not part of this model, and the lock only matters for concurrency. So the `?` that ends `run` on a store error is not modelled.
- src/db.rs, src/web.rs and src/opt.rs are left out. They hold a SQLite demo, the HTTP routing around an unseen `top_k`, and the CLI struct.
- Capture.Process: in the source, a frame shorter than 42 bytes panics in `&packet[42..]` (src/lib.rs:126, src/main.rs:95), which ends `run` and `main`. The model excludes such frames by a precondition (`Monitor.Admissible` for every loop member), because nothing in the source checks the length and the capture filter is configurable. That panic path is not modelled.
- Monitor.RunStep: `total_counts` is an inferred `i32` in the source, and the table values are `i32` too. The model uses unbounded naturals, so overflow after 2^31 observations is not modelled.
- Stats.Increment: counts are unbounded naturals. The source's `i32` entries would overflow after 2^31 observations of one name.
