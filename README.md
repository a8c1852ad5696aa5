# ipa_analyzer: the Analyzer core in Dafny

This project models `IpaAnalyzer::Analyzer`, the class that reads metadata out of an iOS application archive (an IPA, a zip file). It covers these steps:

- finds the application bundle under `Payload/`;
- decodes the bundle's `Info.plist` and its `embedded.mobileprovision`, a PKCS#7-signed plist;
- reads the first developer certificate of the profile through openssl's text output;
- probes the three entitlements file names;
- lists the frameworks;
- walks the app extensions (`PlugIns/*.appex`) recursively, as well as the watch app (`Watch/*.app`).

The class keeps its state in fields of a Dafny `class`:

- the IPA path;
- the open archive (`@ipa_zipfile`);
- the application folder (`@app_folder_path`);
- whether the archive has been closed;
- two ghost counters for the temporary files the plist collectors create: handles still open, and files still on disk.

Every collector is an imperative `method` written the way `analyzer.rb` writes it. Each is proved equal to a specification function of the archive, the tools and the path. The properties the code promises are then proved about those functions as lemmas.

Modules, in dependency order:

- `Wrappers`:
  - `Option`.
  - `Outcome`: a value or a raised `Error`. Ruby's `raise` is `Raised`; a `rescue` that yields nil is `Ok(None)`.
  - `RunAll`: the each-loop whose body may raise.
- `Zip`: the archive as an ordered list of entries, with:
  - rubyzip's `find_entry` (names compared with one trailing `/` dropped);
  - `glob` (the `*` does not cross `/`);
  - `dir.entries('Payload')`;
  - Ruby's `File.basename`/`File.extname` and `split('.')[0]`.
- `TempFiles`: `Tempfile#close` and `#unlink`, and the `ensure` clause both as written and as evidently intended.
- `Certificate`:
  - the hex rendering of a certificate;
  - `xxd -r -p`;
  - the two regular expressions (`KEY=([^=]*)(, [A-Z]+=|$)` and `=(.*)$`), stated as the leftmost, greedy match Ruby reports;
  - the certificate record and the two extractors that fill it.
- `CertificateExamples`: the `UID=…, CN=…, O=…` subject line.
- `Plist`:
  - decoded plist values;
  - Ruby's ordered `Hash` with `h[k] = v`;
  - `to_s`;
  - the "keep Hash and Array, else `to_s`" rule.
- `External`: openssl and CFPropertyList, given as functions the caller supplies.
- `Content`:
  - the two `plist.each` folds (Info.plist, and provisioning profile with `DeveloperCertificates` → `:cert_info`);
  - `collect_cert_info`.
- `Collectors`: what each `collect_*` method returns, as functions.
- `Locator`: `find_app_folder_in_ipa`.
- `IpaAnalyzer`: class `Analyzer`.

The two date fields are modelled as `analyzer.rb` writes them:

- `expiration_date` gets openssl's `notBefore` (the start date);
- `creation_date` gets `notAfter` (the end date).

Most collector failures end in a nil sub-record, because the collectors rescue them. `analyzer.rb` still raises in three cases, and the model follows the code:

- a missing `Info.plist` raises `File 'Info.plist' not found in …`;
- a missing profile raises;
- a framework or extension whose sub-record decodes to nil raises at `nil[:content]` (`NilContent`).

The two plist collectors extract the entry into a `Tempfile` and end with `ensure tempfile.close && tempfile.unlink`. `Tempfile#close` returns nil, so `unlink` never runs, and every file extracted stays on disk until the Tempfile object is finalised or the process exits. The model keeps this behaviour; module `TempFiles` gives the corrected clean-up beside it (see "## Findings").

Ruby's `dir.entries`, `find_entry` and `glob` work on rubyzip's entry set, a hash keyed by the entry name with one trailing '/' dropped. The archive the analyzer holds is therefore an `EntrySet`: a list of entries whose such names are distinct.

## Model

| member | source | states |
|---|---|---|
| Certificate.HexByte | lib/ipa_analyzer/analyzer.rb:82 | `b.to_s(16).rjust(2,'0')` is always two lowercase digits, high nibble first |
| Certificate.Hex | lib/ipa_analyzer/analyzer.rb:82 | the hex string of n bytes has length 2n and only the digits 0-9a-f |
| Certificate.XxdReverse | lib/ipa_analyzer/analyzer.rb:44 | `xxd -r -p` gives one byte per pair of hex digits: byte i is the value of digits 2i and 2i+1 |
| Certificate.XxdReverseHex | lib/ipa_analyzer/analyzer.rb:44 | `xxd -r -p` on the hex rendering gives back exactly the certificate's bytes |
| Certificate.FieldMatchAt | lib/ipa_analyzer/analyzer.rb:38 | at one start position: the longest capture the regex accepts there, or none when no capture length matches |
| Certificate.FieldSearch | lib/ipa_analyzer/analyzer.rb:38 | the first start position at which the field regex matches, with its longest capture; none when no start matches |
| Certificate.IssuerField | lib/ipa_analyzer/analyzer.rb:33-41 | the extracted field never contains '=' |
| Certificate.IssuerFieldIsReportedMatch | lib/ipa_analyzer/analyzer.rb:38-40 | None exactly when the regex matches nowhere; otherwise the value is the capture of the leftmost, greedy match |
| Certificate.ReportedMatchUnique | lib/ipa_analyzer/analyzer.rb:38 | the leftmost-greedy match is unique |
| Certificate.DateField | lib/ipa_analyzer/analyzer.rb:55-59 | None (the raise) exactly when the line has no '='; otherwise a match of `=(.*)$` at the first '=' |
| Certificate.DateMatchUnique | lib/ipa_analyzer/analyzer.rb:56 | `=(.*)$` has only one match: the first '=' through the end of that line |
| Certificate.DateLineField | lib/ipa_analyzer/analyzer.rb:55-59 | on an openssl line `notBefore=<date>` the whole date comes back |
| Certificate.WithIssuer | lib/ipa_analyzer/analyzer.rb:43-53 | issuer_raw is set; cn, uid and org are set in that order; the first field that fails stops the rest and sets that field's error message; the dates are untouched |
| Certificate.WithDates | lib/ipa_analyzer/analyzer.rb:61-71 | expiration_date gets the start date and then creation_date the end date; the first failure stops and sets the date error; the issuer fields are untouched |
| Certificate.ExtractIssuer | lib/ipa_analyzer/analyzer.rb:43-53 | the step-by-step updates produce `WithIssuer` |
| Certificate.ExtractDates | lib/ipa_analyzer/analyzer.rb:61-71 | the step-by-step updates produce `WithDates` |
| CertificateExamples.SubjectLineFields | lib/ipa_analyzer/analyzer.rb:38-40 | on `UID=u, CN=c, O=o` the three fields come back whole (commas included) when none holds '=' |
| CertificateExamples.SubjectExample | lib/ipa_analyzer/analyzer.rb:47-49 | `UID=ABC123, CN=Jane Doe, O=Example, Inc.` gives CN "Jane Doe", UID "ABC123", O "Example, Inc." |
| CertificateExamples.ReportedCapture | lib/ipa_analyzer/analyzer.rb:38-40 | a match shown to be the leftmost-greedy one is what the extractor returns |
| CertificateExamples.UidField | lib/ipa_analyzer/analyzer.rb:48 | the UID field of a subject line is u |
| CertificateExamples.CnField | lib/ipa_analyzer/analyzer.rb:47 | the CN field of a subject line is c; "UID=" does not count as a "CN=" start |
| CertificateExamples.OField | lib/ipa_analyzer/analyzer.rb:49 | the O field of a subject line is o; no earlier position starts a match, because the only "=" before "O=" follow the D of "UID" and the N of "CN" |
| Plist.IntToString | lib/ipa_analyzer/analyzer.rb:124 | `Integer#to_s`: a leading "-" exactly for a negative number, then decimal digits that read back as its magnitude |
| Plist.NatToStringValue | lib/ipa_analyzer/analyzer.rb:124 | reading the decimal digits of n back gives n |
| Plist.ToS | lib/ipa_analyzer/analyzer.rb:124 | a string is kept, a boolean gives "true" or "false", an integer its signed decimal text, a real or date its rendered text, and data one character per byte |
| Plist.Normalize | lib/ipa_analyzer/analyzer.rb:117-125 | a Hash or Array is kept as is; any other value becomes its `to_s` string |
| Plist.Lookup | lib/ipa_analyzer/analyzer.rb:127 | `h[k]` is nil exactly when k is not a key, and otherwise a stored pair |
| Plist.Put | lib/ipa_analyzer/analyzer.rb:127 | `h[k] = f` keeps the key order when k is present and appends (k, f) otherwise |
| Plist.PutLookup | lib/ipa_analyzer/analyzer.rb:171 | after `h[k] = f`, k maps to f and every other key is unchanged |
| Plist.PutKeepsUniqueKeys | lib/ipa_analyzer/analyzer.rb:171 | assignment never duplicates a key |
| Plist.PutKeys | lib/ipa_analyzer/analyzer.rb:171 | the keys after `h[k] = f` are the old keys plus k |
| Plist.PutPairs | lib/ipa_analyzer/analyzer.rb:127 | every pair after `h[k] = f` is an old pair or (k, f) |
| Content.FirstCertificate | lib/ipa_analyzer/analyzer.rb:82 | `base64data.first.each_byte` succeeds exactly on a non-empty array whose first element is data, and yields those bytes |
| Content.CertInfoOf | lib/ipa_analyzer/analyzer.rb:73-86 | None (the raise) exactly when there is no first certificate; otherwise the six-field record filled from openssl's output on the first certificate's own bytes |
| Content.CertInfoUsesFirstOnly | lib/ipa_analyzer/analyzer.rb:82 | certificates after the first do not affect the record |
| Content.CertRecordFields | lib/ipa_analyzer/analyzer.rb:74-85 | the fields start as nil: a failed CN leaves cn, uid and org nil, and a failed start date leaves creation_date nil |
| Content.CollectCertInfo | lib/ipa_analyzer/analyzer.rb:73-86 | the method returns `CertInfoOf` |
| Content.InfoContent | lib/ipa_analyzer/analyzer.rb:160-172 | the Info.plist fold, one `h[k] = v` per plist pair in order; never more pairs than the plist |
| Content.InfoContentLastWins | lib/ipa_analyzer/analyzer.rb:171 | the value stored for the last pair's key is that pair's normalised value |
| Content.InfoContentWellFormed | lib/ipa_analyzer/analyzer.rb:160-172 | the Info.plist content has distinct keys and holds only plist keys bound to normalised values |
| Content.InfoContentKeys | lib/ipa_analyzer/analyzer.rb:160-172 | the content's keys are exactly the plist's keys, and :cert_info is never one |
| Content.InfoContentInOrder | lib/ipa_analyzer/analyzer.rb:160-172 | with distinct plist keys the content is the plist normalised pair by pair, in order |
| Content.FillInfoContent | lib/ipa_analyzer/analyzer.rb:160-172 | the loop computes the Info.plist fold |
| Content.ProvisionFold | lib/ipa_analyzer/analyzer.rb:112-128 | the profile fold with collect_cert_info as a parameter; a record has no more pairs than the plist |
| Content.ProvisionFoldLastWins | lib/ipa_analyzer/analyzer.rb:127 | unless it is DeveloperCertificates, the last pair decides its key's value |
| Content.ProvisionContent | lib/ipa_analyzer/analyzer.rb:112-128 | the fold with collect_cert_info plugged in; without DeveloperCertificates, the Info.plist fold of the profile |
| Content.ProvisionFoldWellFormed | lib/ipa_analyzer/analyzer.rb:112-128 | the profile content has distinct keys; each is a non-DeveloperCertificates plist key with a normalised value, or :cert_info with a record |
| Content.ProvisionContentKeys | lib/ipa_analyzer/analyzer.rb:112-128 | the keys are the plist's minus DeveloperCertificates; :cert_info is present exactly when DeveloperCertificates was; nothing else is added |
| Content.ProvisionWithoutCertificates | lib/ipa_analyzer/analyzer.rb:112-128 | without DeveloperCertificates the profile content is the Info.plist fold |
| Content.ProvisionFails | lib/ipa_analyzer/analyzer.rb:113-116 | the profile content is nil exactly when some DeveloperCertificates value makes collect_cert_info raise |
| Content.ProvisionContentInOrder | lib/ipa_analyzer/analyzer.rb:112-128 | with distinct plist keys the profile content follows the plist pair by pair: DeveloperCertificates becomes (:cert_info, collect_cert_info of its value), every other pair its normalised value |
| Content.ProvisionPrefixFails | lib/ipa_analyzer/analyzer.rb:112-132 | a raise part-way through the loop makes the whole record nil |
| Content.FillProvisionContent | lib/ipa_analyzer/analyzer.rb:112-132 | the loop, with `next` and the rescue, computes the profile fold |
| Collectors.InfoPlistSpec | lib/ipa_analyzer/analyzer.rb:143-181 | raises 'IPA is not open' exactly when not open; raises 'Info.plist not found' exactly when the entry is missing; no other raise |
| Collectors.InfoPlistRecordPath | lib/ipa_analyzer/analyzer.rb:150-153 | path_in_ipa is the name of the entry found for the path |
| Collectors.InfoPlistDecoded | lib/ipa_analyzer/analyzer.rb:153-172 | a decodable plist gives a record whose content is its normalised pairs in order |
| Collectors.InfoPlistDecodeFailure | lib/ipa_analyzer/analyzer.rb:155-176 | a failed extraction or decode gives nil, not a raise |
| Collectors.ProvisionSpec | lib/ipa_analyzer/analyzer.rb:92-137 | raises 'IPA is not open' exactly when not open; raises the not-found message, which names path + "embedded.mobileprovision", exactly when that entry is missing; no other raise |
| Collectors.ProvisionRecord | lib/ipa_analyzer/analyzer.rb:100-116 | path_in_ipa is the profile entry's name, and the content has no DeveloperCertificates key |
| Collectors.ProvisionDecoded | lib/ipa_analyzer/analyzer.rb:100-132 | a readable profile with distinct keys gives nil exactly when collect_cert_info raises on a DeveloperCertificates value; otherwise path_in_ipa is the entry's name and the content holds the plist pair by pair, with `CertInfoOf` of the DeveloperCertificates value under :cert_info |
| Collectors.ProvisionDecodeFailure | lib/ipa_analyzer/analyzer.rb:104-132 | a failed extraction or decode, or a raise in collect_cert_info, gives nil, not a raise |
| Collectors.EntitlementCandidates | lib/ipa_analyzer/analyzer.rb:217-225 | Entitlements.plist, then archived-expanded-entitlements.xcent, then `<name>.entitlements` exactly when the last path segment has a first dot-field |
| Collectors.Probe | lib/ipa_analyzer/analyzer.rb:229-230 | a candidate yields a record exactly when its entry exists and decodes; the record is collect_info_plist_info_with_path's |
| Collectors.FirstProbed | lib/ipa_analyzer/analyzer.rb:227-231 | the record of a candidate before which none yields one; nil exactly when none yields one |
| Collectors.FirstProbedIs | lib/ipa_analyzer/analyzer.rb:228-231 | the earliest yielding candidate is the one answered |
| Collectors.DefaultEntitlementsRecord | lib/ipa_analyzer/analyzer.rb:234 | the default record has no path_in_ipa and only the key "error", holding "Could not find an entitlements file" |
| Collectors.EntitlementsSpec | lib/ipa_analyzer/analyzer.rb:214-237 | raises only, and exactly, when not open; otherwise the first probed record or the default error record |
| Collectors.ContentOf | lib/ipa_analyzer/analyzer.rb:202 | `[:content]` raises exactly when the sub-record raised or is nil |
| Collectors.FrameworkRecordOf | lib/ipa_analyzer/analyzer.rb:199-203 | a framework's record is filed under `<framework>Info.plist` |
| Collectors.FrameworkSteps | lib/ipa_analyzer/analyzer.rb:198-205 | one loop step per framework, in glob order |
| Collectors.FrameworkRecords | lib/ipa_analyzer/analyzer.rb:198-205 | one record per framework |
| Collectors.FrameworkRecordsEach | lib/ipa_analyzer/analyzer.rb:198-205 | the i-th record is the i-th framework's own; the loop raises exactly when some framework's record raises |
| Collectors.FrameworksSpec | lib/ipa_analyzer/analyzer.rb:184-207 | raises when not open; nil when the glob is empty; otherwise path `<app>/Frameworks` and one record per glob match |
| Collectors.AssembleNode | lib/ipa_analyzer/analyzer.rb:264-270 | the node raises exactly when a step does, the Info.plist step deciding first; otherwise it holds the four results, plugins [] for nil |
| Collectors.NodeSpec | lib/ipa_analyzer/analyzer.rb:256-271 | a node's path_in_ipa is its glob match's name |
| Collectors.NodeParts | lib/ipa_analyzer/analyzer.rb:264-270 | a node holds the Info.plist and profile contents and the entitlements content of its folder, and as plugins the nodes of `<name>PlugIns/*.appex`, [] when there are none |
| Collectors.NodeSteps | lib/ipa_analyzer/analyzer.rb:256-271 | one loop step per glob match, in order |
| Collectors.NodesSpec | lib/ipa_analyzer/analyzer.rb:256-271 | one node per glob match |
| Collectors.ExtensionsSpec | lib/ipa_analyzer/analyzer.rb:247-274 | nil exactly when the glob `q*ext` is empty; otherwise one node per match; the recursion on PlugIns terminates |
| Collectors.AppExtensionsSpec | lib/ipa_analyzer/analyzer.rb:247-253 | raises 'IPA is not open' when not open, else as above |
| Collectors.WatchSpec | lib/ipa_analyzer/analyzer.rb:240-243 | raises when not open; nil when there is no `Watch/*.app` match |
| Collectors.ExtensionsPaths | lib/ipa_analyzer/analyzer.rb:255-273 | the i-th node is for the i-th glob match |
| Collectors.WatchIsFirst | lib/ipa_analyzer/analyzer.rb:240-243 | the watch record is the first `Watch/*.app` match's |
| Wrappers.Message | lib/ipa_analyzer/analyzer.rb:102 | the texts the analyzer raises with; the missing-profile message ends with the profile path, and the missing-Info.plist message (line 151) with the IPA path |
| Wrappers.RunAll | lib/ipa_analyzer/analyzer.rb:198-205 | a loop that finishes yields one value per step |
| Wrappers.RunAllValues | lib/ipa_analyzer/analyzer.rb:256-271 | when nothing raises, value i is step i's |
| Wrappers.RunAllFirstRaise | lib/ipa_analyzer/analyzer.rb:256-271 | the first raising step's error is the loop's |
| Wrappers.RunAllRaises | lib/ipa_analyzer/analyzer.rb:198-205 | the loop raises exactly when some step raises |
| Zip.Chomp | lib/ipa_analyzer/analyzer.rb:100 | drops exactly one trailing '/' when there is one, and otherwise changes nothing |
| Zip.FindEntry | lib/ipa_analyzer/analyzer.rb:150 | a found entry is in the archive and has the name looked up, a trailing '/' ignored |
| Zip.FindEntryUnique | lib/ipa_analyzer/analyzer.rb:150 | in an entry set, find_entry answers the one entry whose name matches |
| Zip.FindEntryNone | lib/ipa_analyzer/analyzer.rb:291-292 | find_entry is nil exactly when no entry has the name |
| Zip.Glob | lib/ipa_analyzer/analyzer.rb:192 | the matches are exactly the archive's entries that fit `prefix*suffix` |
| Zip.GlobExtendsPrefix | lib/ipa_analyzer/analyzer.rb:251 | every match starts with the prefix and is at least prefix plus suffix long |
| Zip.ChildrenIn | lib/ipa_analyzer/analyzer.rb:299 | c is listed exactly when some entry's name, one trailing '/' dropped, is dir + c with c a non-empty segment without '/' |
| Zip.ChildrenInAppend | lib/ipa_analyzer/analyzer.rb:299 | the children are listed in archive order: the listing of a concatenation is the concatenation of the listings |
| Zip.PayloadChildren | lib/ipa_analyzer/analyzer.rb:299 | a listing exists only with a `Payload/` directory entry, never without a Payload entry, and is then the children of `Payload/` |
| Zip.PayloadChildrenIs | lib/ipa_analyzer/analyzer.rb:299 | in an entry set, Payload can be listed exactly when a `Payload/` directory entry exists |
| Zip.Basename | lib/ipa_analyzer/analyzer.rb:217 | "" for "", "/" for a name of slashes only; otherwise the whole last segment of the name with its trailing slashes dropped: a non-empty suffix without '/' that starts the name or follows a '/' |
| Zip.StripSlashes | lib/ipa_analyzer/analyzer.rb:217 | the longest prefix that does not end in '/', only slashes dropped |
| Zip.LastSlashEnd | lib/ipa_analyzer/analyzer.rb:217 | the position just after the last '/' (0 when there is none) |
| Zip.LeadingDots | lib/ipa_analyzer/analyzer.rb:289 | the length of the run of dots that starts the name |
| Zip.WithoutExtension | lib/ipa_analyzer/analyzer.rb:289 | a segment without a '.' after its leading dots is kept; otherwise it is cut just before its last '.', which is not one of the leading dots |
| Zip.BasenameWithoutExt | lib/ipa_analyzer/analyzer.rb:289 | the basename, or, when it has a '.' after its leading dots, the basename cut just before its last '.' |
| Zip.LastDotAfter | lib/ipa_analyzer/analyzer.rb:289 | the position of the last '.' after a given index, or none when there is none |
| Zip.FirstDotField | lib/ipa_analyzer/analyzer.rb:217 | nil exactly when the name is only dots; otherwise the text before the first '.' |
| Locator.AppPatternOnLine | lib/ipa_analyzer/analyzer.rb:300 | on one line `/.app$/` means at least four characters ending in "app" |
| Locator.CanonicalFolder | lib/ipa_analyzer/analyzer.rb:289 | `Payload/`, the IPA's name without extension, then `.app`; the result always passes `/.app$/` |
| Locator.AppFolderName | lib/ipa_analyzer/analyzer.rb:289 | any `Payload/<name>.app` passes `/.app$/` |
| Locator.FirstBundle | lib/ipa_analyzer/analyzer.rb:299-311 | the first Payload child that passes `/.app$/` and holds both files; nil exactly when there is none |
| Locator.FirstBundleIs | lib/ipa_analyzer/analyzer.rb:299-306 | the earliest accepted child is the one answered |
| Locator.Locate | lib/ipa_analyzer/analyzer.rb:285-312 | the only raise is the Payload listing's |
| Locator.LocateCanonicalFirst | lib/ipa_analyzer/analyzer.rb:289-296 | `Payload/<ipa name>.app` wins whenever it holds both files |
| Locator.LocatedHasBundle | lib/ipa_analyzer/analyzer.rb:308-310 | every folder answered holds embedded.mobileprovision and Info.plist |
| Locator.LocateSearchesPayload | lib/ipa_analyzer/analyzer.rb:299-311 | otherwise the answer is the first accepted child, and nil exactly when no child is accepted |
| Locator.LocateRaises | lib/ipa_analyzer/analyzer.rb:299 | raises exactly when the canonical folder fails and Payload is not a directory |
| IpaAnalyzer.Analyzer.constructor | lib/ipa_analyzer/analyzer.rb:9-13 | starts with no archive and no folder |
| IpaAnalyzer.Analyzer.IsOpen | lib/ipa_analyzer/analyzer.rb:25-27 | open? is true exactly when an archive is held |
| IpaAnalyzer.Analyzer.Open | lib/ipa_analyzer/analyzer.rb:15-23 | an unreadable archive or a raising search gives 'File is not a valid IPA'; a nil folder is stored and then raises 'No app folder found'; otherwise the folder is stored and holds both files |
| IpaAnalyzer.Analyzer.Close | lib/ipa_analyzer/analyzer.rb:29-31 | closes only when open; nothing else changes |
| IpaAnalyzer.Analyzer.FindAppFolder | lib/ipa_analyzer/analyzer.rb:285-312 | raises when not open; otherwise answers `Locate` |
| IpaAnalyzer.Analyzer.ScanPayload | lib/ipa_analyzer/analyzer.rb:299-311 | the loop with its `next` and `break`, plus the final check, answers `FirstBundle` |
| IpaAnalyzer.Analyzer.CollectInfoPlistInfoWithPath | lib/ipa_analyzer/analyzer.rb:143-181 | answers `InfoPlistSpec`; the temporary file's handle is closed, but the file stays on disk: one more file on disk per entry found |
| IpaAnalyzer.Analyzer.CollectProvisionInfoWithPath | lib/ipa_analyzer/analyzer.rb:92-137 | answers `ProvisionSpec`; the temporary file's handle is closed, but the file stays on disk: one more file on disk per entry found |
| IpaAnalyzer.Analyzer.CollectEntitlementsInfoWithPath | lib/ipa_analyzer/analyzer.rb:214-237 | answers `EntitlementsSpec`; every temporary file handle opened is closed again, and files are only ever added to disk |
| IpaAnalyzer.Analyzer.PossibleEntitlementFiles | lib/ipa_analyzer/analyzer.rb:217-225 | builds the candidate list `EntitlementCandidates` |
| IpaAnalyzer.Analyzer.ProbeEntitlements | lib/ipa_analyzer/analyzer.rb:227-231 | the loop answers `FirstProbed` |
| IpaAnalyzer.Analyzer.CollectFrameworksInfo | lib/ipa_analyzer/analyzer.rb:184-207 | answers `FrameworksSpec` for the stored folder |
| IpaAnalyzer.Analyzer.CollectFrameworkRecords | lib/ipa_analyzer/analyzer.rb:198-205 | the loop answers `FrameworkRecords` |
| IpaAnalyzer.Analyzer.CollectFrameworkRecord | lib/ipa_analyzer/analyzer.rb:199-203 | the loop body answers `FrameworkRecordOf` |
| IpaAnalyzer.Analyzer.CollectAppExtensionsInfoFromPath | lib/ipa_analyzer/analyzer.rb:247-274 | answers `AppExtensionsSpec`; the recursion terminates |
| IpaAnalyzer.Analyzer.CollectNodes | lib/ipa_analyzer/analyzer.rb:255-273 | the loop answers `NodesSpec` |
| IpaAnalyzer.Analyzer.CollectNode | lib/ipa_analyzer/analyzer.rb:256-270 | the loop body answers `NodeSpec` |
| IpaAnalyzer.Analyzer.CollectNodeTail | lib/ipa_analyzer/analyzer.rb:266-270 | entitlements, then PlugIns, assembled as `AssembleNode` |
| IpaAnalyzer.Analyzer.CollectWatchInfo | lib/ipa_analyzer/analyzer.rb:240-243 | answers `WatchSpec` |
| IpaAnalyzer.Analyzer.CollectProvisionInfo | lib/ipa_analyzer/analyzer.rb:88-90 | the profile at `<app folder>/` |
| IpaAnalyzer.Analyzer.CollectInfoPlistInfo | lib/ipa_analyzer/analyzer.rb:139-141 | the Info.plist at `<app folder>/Info.plist` |
| IpaAnalyzer.Analyzer.CollectEntitlementsInfo | lib/ipa_analyzer/analyzer.rb:209-211 | the entitlements under `<app folder>/` |
| IpaAnalyzer.Analyzer.CollectAppExtensionsInfo | lib/ipa_analyzer/analyzer.rb:277-279 | the extensions matching `<app folder>/PlugIns/*.appex` |
| TempFiles.Close | lib/ipa_analyzer/analyzer.rb:134 | `Tempfile#close(unlink_now)` closes the handle and removes the file only with unlink_now; without it the value is nil |
| TempFiles.Unlink | lib/ipa_analyzer/analyzer.rb:134 | `Tempfile#unlink` removes the file and leaves the handle as it was |
| TempFiles.CleanupAsWritten | lib/ipa_analyzer/analyzer.rb:134 | `tempfile.close && tempfile.unlink` closes the handle and leaves the file as it was |
| TempFiles.Cleanup | lib/ipa_analyzer/analyzer.rb:134 | closing and then unlinking leaves neither an open handle nor a file on disk |
| TempFiles.CleanupAsWrittenLeaks | lib/ipa_analyzer/analyzer.rb:134 | on a fresh temporary file the clause as written leaves it on disk, and the corrected one removes it |

## Findings

| source | as written | input that shows it | evidently intended | confidence | as-written member | corrected member |
|---|---|---|---|---|---|---|
| lib/ipa_analyzer/analyzer.rb:134 | `tempfile.close && tempfile.unlink` in collect_provision_info_with_path | any profile entry that is found: `Tempfile#close` returns nil, so `unlink` is skipped | close the handle, then unlink the file | not executed | TempFiles.CleanupAsWrittenLeaks | TempFiles.Cleanup |
| lib/ipa_analyzer/analyzer.rb:178 | `tempfile.close && tempfile.unlink` in collect_info_plist_info_with_path | any plist entry that is found: `Tempfile#close` returns nil, so `unlink` is skipped | close the handle, then unlink the file | not executed | TempFiles.CleanupAsWrittenLeaks | TempFiles.Cleanup |

`IpaAnalyzer.Analyzer` keeps the clause as written (`TempFiles.CleanupAsWritten`), so its counters show the files that stay on disk. `TempFiles.Cleanup` is the clean-up that removes them.

## Left out

- Executables and libraries called from the code become fields of `External.Tools`, supplied by the caller:
  - openssl (`x509 -subject/-startdate/-enddate`, `smime -verify -noverify`);
  - CFPropertyList's parsing and `native_types`.
  What they compute is not modelled, including signature checking, which `-noverify` skips anyway.
- Zip decoding is not modelled. An entry is a name plus the bytes extraction yields, or None when extraction fails. `Zip::File.open` is the `archive` parameter of `Open`.
- rubyzip's glob is modelled as `prefix*suffix`, with the star not crossing '/'. Glob metacharacters inside the prefix (the folder name) are taken literally.
- Names with a newline are handled by the `$` rules of the two regexes and of `/.app$/`. Nothing beyond that rule is modelled for them.
- Tempfile naming, and the `override = true` block passed to `extract`, are not modelled. Temporary files are counted by two ghost counters: open handles, and files on disk.
- Zip.FindEntry, Zip.Glob: they are stated on rubyzip's entry set (`EntrySet`), whose names, one trailing '/' dropped, are distinct. When the raw central directory lists such a name twice, rubyzip keeps the last entry at the first one's position; that step happens before the entry set and is not modelled.
- Certificate.IssuerField, Certificate.DateField: openssl's output is taken as text. Output that is not valid UTF-8 makes Ruby's regex match raise ArgumentError. cert_extract_issuer and cert_extract_dates rescue it, so error_msg would become "invalid byte sequence in UTF-8" plus the hint; this case is not modelled.
- `puts e.message` in the two rescues is output only and is left out.
- Ruby's `to_s` on reals and dates is not modelled. The decoded value carries its rendered text.
- Content.FirstCertificate: a first certificate that CFPropertyList hands over as a String rather than data is treated as a raise. Ruby would iterate the string's bytes.
- A plist whose root is not a dictionary cannot be represented: `External.PlistDict` is a dictionary.
- IpaAnalyzer.Analyzer.Close: the archive handle is not cleared, so `open?` stays true after `close`, as in the source. What the closed handle does to later collectors is not modelled; they read the same entries.
- Collectors.DefaultEntitlements: the default record has only `:content`. `pathInIpa` None stands for the absent `:path_in_ipa` key.
- Collectors.FrameworksSpec: the not-open clause is stated one way only. An open archive raises too when a framework's Info.plist is missing or decodes to nil.
- Collectors.InfoPlistSpec, Collectors.ProvisionSpec: the path and content facts are stated separately, in InfoPlistRecordPath, InfoPlistDecoded, InfoPlistDecodeFailure, ProvisionRecord, ProvisionDecoded and ProvisionDecodeFailure.
- Collectors.AssembleNode: all four sub-results are evaluated, where the source stops at the first raise. The result is the same, because the pure specifications have no side effects; the methods keep the source's order.
- Collectors.WatchSpec: the path of the watch record is stated in WatchIsFirst.
- The command-line front end ipa_analyzer.rb is not part of this model. It handles option parsing, JSON output, and which collectors are run. Its own plist reader ends with `tempfile.close and tempfile.unlink` (ipa_analyzer.rb:111), the same pattern as the finding above.
- Locator.AppPatternOnLine: Payload children are taken as text. A name that rubyzip marks as UTF-8 but that is not valid UTF-8 would make `=~` raise inside open!, which answers 'File is not a valid IPA'; this case is not modelled.
