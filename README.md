# privacy-mcp in Dafny

A verified model of the core of **privacy-mcp**, a local MCP server ("local
privacy guardian"). It lets a client read text files inside one sandbox
directory, and only the files the JSON policy allows. It detects personal
data (e-mail addresses, phone numbers, card numbers, Canadian SINs) with
regular expressions or with the Presidio analyser. It masks what it finds
with a redaction token. Every tool call is written to a hash-chained JSONL
audit log.

The model has one Dafny module per concern:

| module | file | models |
|---|---|---|
| `Common` | common.dfy | JSON values, ordered dicts with Python's update semantics, `Option`/`Result`, Python slicing |
| `Paths` | paths.dfy | the `pathlib` operations used: lexical `resolve`, `suffix`, `relative_to`, `as_posix`, `str` |
| `Glob` | glob.dfy | `fnmatch.fnmatch` on posix (`*` and `?`) |
| `Sandbox` | sandbox.dfy | `safe_resolve`, `_matches_any`, `allowed_by_policy`, `read_text_safely` |
| `PolicyStore` | policy.dfy | `DEFAULT_POLICY` and the class `Policy` (load, `data`, `save`, `patch`) |
| `Audit` | audit.dfy | the class `Auditor` (`_last_hash`, `log`) and the hash chain its log forms |
| `Patterns` | patterns.dfy | the languages of the four `REGEXES` patterns, with their digit counts |
| `Detect` | detect.dfy | `detect_regex`, `detect_presidio`, `detect` |
| `Redact` | redact.dfy | `apply_redactions` |
| `Server` | server.dfy | the tools `get_policy`, `set_policy`, `list_dir`, `scan_text`, `safe_read_file`, `copy_redacted_file` and the `privacy://{relpath}` resource |

Code that only computes is modelled as functions. Code that loops or changes
state is modelled as methods proved against those functions:

- `Redact.ApplyRedactions` keeps the source's loop over the sorted findings.
- `Detect.DetectRegex` keeps the nested loop over the patterns and their matches.
- `Server.ListItems` keeps the loop over the sorted directory entries.
- `Policy`, `Auditor` and `Server` are classes whose methods update the
  policy data, the policy file, the log lines and the redacted copies.

Each tool splits into two parts. A function computes its *outcome*: the
result or the error it raises, and the audit event it writes, if any. The
`Server` method then performs that outcome on the shared `Policy` and
`Auditor`.

Foreign code is passed in as parameters about which nothing is assumed:

- SHA-256, `json.dumps`, the timestamp and the UTF-8 decoder;
- the filesystem contents and the working directory;
- the Presidio analyser, which may be absent.

The four regular expressions are *matchers*. Each one is known only to
return the spans `finditer` would: non-empty, inside the text, ascending,
non-overlapping, and each in the pattern's language as `Patterns` defines it.

Behaviour reproduced as written:

- `safe_resolve` compares the root and the resolved path as raw strings. A
  sibling directory whose name extends the root's name (`/data-evil` next to
  `/data`) therefore passes. `Sandbox.SiblingOfRoot` states exactly when that
  happens.
- `fnmatch`'s `*` matches `/`, but the default allow globs (`**/*.txt`,
  `**/*.md`, `**/*.json`) each still need one `/` in the root-relative path.
  Under the default policy a `.txt` file directly in the sandbox root, such as
  `intake_1.txt`, is therefore refused at the allow-glob step
  (`Glob.DefaultTxtGlobNeedsDirectory`); one in a subdirectory is allowed
  (`Glob.DefaultTxtGlobBelow`). The repository's `test_allowed` expects the
  top-level file to be allowed; the model follows the code.
- For the example in tests/test_detect.py, `"contact me at alice@example.com"`,
  `m.start()` and `m.end()` are half-open offsets. The e-mail finding therefore
  runs from 14 to 31, and `Detect.ContactExample` states exactly that finding.

## Model

| member | source | states |
|---|---|---|
| Common.LookupPut | privacy-mcp/src/privacy_mcp/core/audit.py:26 | after `event[k] = v`, looking up `k` gives `v` and every other key is unchanged |
| Common.PutKeys | privacy-mcp/src/privacy_mcp/core/audit.py:26-30 | assigning a key keeps the existing key order and appends a new key at the end |
| Common.WithoutAfterPut | privacy-mcp/src/privacy_mcp/core/audit.py:28 | leaving out `hash` after setting `hash` gives the same dict as leaving it out before |
| Paths.Resolve | privacy-mcp/src/privacy_mcp/core/sandbox.py:6-7 | `Path(s).resolve()` always yields a normal absolute path: no empty, `.` or `..` component |
| Paths.WalkDown | privacy-mcp/src/privacy_mcp/core/sandbox.py:7 | a relative path without `..` resolves to the directory followed by its non-empty, non-`.` parts |
| Paths.WalkUp | privacy-mcp/src/privacy_mcp/core/sandbox.py:7 | parts made only of `..`, `.` and empty strings resolve to an ancestor of the directory, a strictly higher one when there is a `..` and the directory is not `/` |
| Paths.JoinSplit | privacy-mcp/src/privacy_mcp/core/sandbox.py:7 | joining the `/`-separated parts of a string gives back the string |
| Paths.SplitJoin | privacy-mcp/src/privacy_mcp/core/sandbox.py:7 | splitting joined slash-free parts gives back the parts |
| Paths.PathStringOfDescendant | privacy-mcp/src/privacy_mcp/core/sandbox.py:8 | the string of a descendant path starts with the string of its ancestor |
| Paths.PathStringOfAncestor | privacy-mcp/src/privacy_mcp/core/sandbox.py:8 | the string of a proper ancestor is strictly shorter |
| Paths.LastDot | privacy-mcp/src/privacy_mcp/core/sandbox.py:17 | the index of the last `.` in a name, or -1 when the name has none |
| Paths.Suffix | privacy-mcp/src/privacy_mcp/core/sandbox.py:17 | a non-empty suffix is a tail of the last component that starts with its only dot and is at least two characters long, and never the whole name |
| Paths.RelativeTo | privacy-mcp/src/privacy_mcp/core/sandbox.py:22 | on success, the root's parts followed by the result are the path; otherwise the error is `ValueError` (NotRelative) |
| Glob.Matches | privacy-mcp/src/privacy_mcp/core/sandbox.py:14 | no contract; stated by Glob.LiteralMatchesItself, Glob.StarMatchesAll, Glob.MatchesConcat, Glob.SlashNeedsSlash, Glob.DefaultTxtGlobNeedsDirectory, Glob.DefaultTxtGlobBelow |
| Glob.LiteralMatchesItself | privacy-mcp/src/privacy_mcp/core/sandbox.py:14 | a pattern without wildcards matches exactly the name equal to it |
| Glob.StarMatchesAll | privacy-mcp/src/privacy_mcp/core/sandbox.py:14 | `*` matches every name |
| Glob.MatchesConcat | privacy-mcp/src/privacy_mcp/core/sandbox.py:14 | matches of two patterns concatenate into a match of the concatenated pattern |
| Glob.SlashNeedsSlash | privacy-mcp/src/privacy_mcp/core/sandbox.py:14 | a pattern holding `/` only matches names holding `/` |
| Glob.DefaultTxtGlobNeedsDirectory | privacy-mcp/src/privacy_mcp/core/policy.py:7 | the default allow glob `**/*.txt` matches no relative path without a `/`, so it never admits a file directly in the root |
| Glob.DefaultTxtGlobBelow | privacy-mcp/src/privacy_mcp/core/policy.py:7 | `**/*.txt` matches every `dir/stem.txt` |
| Sandbox.SafeResolve | privacy-mcp/src/privacy_mcp/core/sandbox.py:5-10 | an accepted path is exactly `(root / relpath).resolve()`, and its string starts with the resolved root's string; PermissionError (EscapesRoot) is raised only when that string does not start with the root's string |
| Sandbox.InsideRootAccepted | privacy-mcp/src/privacy_mcp/core/sandbox.py:5-10 | every `relpath` whose resolution lies at or below the root is accepted, at that resolution |
| Sandbox.DownAndUpAccepted | privacy-mcp/src/privacy_mcp/core/sandbox.py:5-10 | `a/../b` is accepted and resolves to the root's child `b` |
| Sandbox.ResolveBelowRoot | privacy-mcp/src/privacy_mcp/core/sandbox.py:5-10 | a relative path without `..` is accepted and resolves to the root followed by its parts |
| Sandbox.ClimbingAboveRootRejected | privacy-mcp/src/privacy_mcp/core/sandbox.py:7-9 | a relative path made only of `..`, `.` and empty parts, with at least one `..`, is rejected |
| Sandbox.SiblingOfRoot | privacy-mcp/src/privacy_mcp/core/sandbox.py:8-10 | `../x` is accepted exactly when the root's last component is a prefix of `x`, and then resolves to the sibling `x` |
| Sandbox.AbsoluteRelpath | privacy-mcp/src/privacy_mcp/core/sandbox.py:7 | an absolute `relpath` replaces the root; if it is accepted it is that path resolved |
| Sandbox.In | privacy-mcp/src/privacy_mcp/core/sandbox.py:17 | `x in v`: for a JSON list, membership of the string `x`; it fails, with TypeError on the field, exactly for a number, boolean or null |
| Sandbox.AnyMatch | privacy-mcp/src/privacy_mcp/core/sandbox.py:12-14 | over a list of strings, true exactly when some pattern matches; otherwise the only error is a type error |
| Sandbox.MatchesAny | privacy-mcp/src/privacy_mcp/core/sandbox.py:12-14 | `_matches_any`: its only error is a type error on the policy field |
| Sandbox.MatchesStrings | privacy-mcp/src/privacy_mcp/core/sandbox.py:12-14 | over a well-typed list field, `_matches_any` is "some pattern matches" |
| Sandbox.AllowedByPolicy | privacy-mcp/src/privacy_mcp/core/sandbox.py:16-26 | no contract; stated by Sandbox.AllowedIsPermitted, Sandbox.AllowedErrorKinds, Sandbox.AllowedIgnoresOtherKeys, Sandbox.DeniedExtensionWins, Sandbox.UnlistedExtensionRefused, Sandbox.EmptyAllowExtensionsIgnored, Sandbox.DenyGlobWins |
| Sandbox.AllowedIsPermitted | privacy-mcp/src/privacy_mcp/core/sandbox.py:16-26 | over a well-typed policy and a path under the root, the decision is `Permitted`: not a denied suffix, a listed suffix when the allow list is non-empty, no deny glob, and some allow glob when that list is non-empty |
| Sandbox.AllowedErrorKinds | privacy-mcp/src/privacy_mcp/core/sandbox.py:16-26 | `allowed_by_policy` fails only with a type error on a policy field or a path outside `root_dir` |
| Sandbox.AllowedIgnoresOtherKeys | privacy-mcp/src/privacy_mcp/core/sandbox.py:16-26 | the decision reads only the five keys `deny_extensions`, `allow_extensions`, `root_dir`, `deny_globs` and `allow_globs` |
| Sandbox.DeniedExtensionWins | privacy-mcp/src/privacy_mcp/core/sandbox.py:17-18 | a suffix in `deny_extensions` refuses the path whatever the other fields say |
| Sandbox.UnlistedExtensionRefused | privacy-mcp/src/privacy_mcp/core/sandbox.py:19-21 | with a non-empty `allow_extensions`, a suffix not listed is refused |
| Sandbox.EmptyAllowExtensionsIgnored | privacy-mcp/src/privacy_mcp/core/sandbox.py:19-21 | an empty, false or missing `allow_extensions` gives the same decision as no such key |
| Sandbox.DenyGlobWins | privacy-mcp/src/privacy_mcp/core/sandbox.py:22-24 | a relative path matching a deny glob is refused whatever the allow globs say |
| Sandbox.ReadTextSafely | privacy-mcp/src/privacy_mcp/core/sandbox.py:28-34 | `snipped` holds exactly when there are more bytes than the cap; the content is the decoding of the first `max_bytes` bytes, with Python's negative slice bound |
| PolicyStore.DefaultPolicy | privacy-mcp/src/privacy_mcp/core/policy.py:5-16 | no contract; stated by PolicyStore.Load (every loaded policy holds every default key; no file gives the defaults), PolicyStore.ReloadAfterSave, Glob.DefaultTxtGlobNeedsDirectory |
| PolicyStore.Load | privacy-mcp/src/privacy_mcp/core/policy.py:19-23 | no file gives the defaults; an unreadable file, a number, boolean, null or non-empty string is an error; `""` and `[]` keep the defaults; a JSON object overrides the defaults key by key and keeps every other default; every result holds every default key |
| PolicyStore.UpdatePairsOk | privacy-mcp/src/privacy_mcp/core/policy.py:23 | updating with a JSON list succeeds exactly when every element is a key/value pair, and fails otherwise with a malformed policy |
| PolicyStore.UpdatePairsUntouched | privacy-mcp/src/privacy_mcp/core/policy.py:23 | a key that no pair of the list sets keeps its presence and its value |
| PolicyStore.UpdatePairsLast | privacy-mcp/src/privacy_mcp/core/policy.py:23 | a key takes the value of the last pair of the list that sets it |
| PolicyStore.UpdatePairsGrows | privacy-mcp/src/privacy_mcp/core/policy.py:23 | updating with a list only adds keys |
| PolicyStore.PairListSetsRoot | privacy-mcp/src/privacy_mcp/core/policy.py:19-23 | the policy file `[["root_dir", "/"]]` loads with the sandbox root moved to `/` |
| PolicyStore.Patched | privacy-mcp/src/privacy_mcp/core/policy.py:33-34 | `update(patch or {})`: the patch's keys take its values, every other key keeps its value, and no patch or an empty one changes nothing |
| PolicyStore.ReloadAfterSave | privacy-mcp/src/privacy_mcp/core/policy.py:19-31 | loading the file `save` wrote gives back the same data |
| PolicyStore.Policy.FromData | privacy-mcp/src/privacy_mcp/core/policy.py:19-23 | builds a valid policy over the given data and file |
| PolicyStore.Policy.Open | privacy-mcp/src/privacy_mcp/core/policy.py:19-23 | succeeds exactly when the file loads, with the loaded data; otherwise the error is a malformed policy file |
| PolicyStore.Policy.Save | privacy-mcp/src/privacy_mcp/core/policy.py:29-31 | the file then holds the current data as a JSON object |
| PolicyStore.Policy.Patch | privacy-mcp/src/privacy_mcp/core/policy.py:33-36 | the data becomes the patched data, the file holds it, and the same data is returned |
| Audit.LastHash | privacy-mcp/src/privacy_mcp/core/audit.py:15-22 | no contract; stated by Audit.LastHashOfChain |
| Audit.NextRecord | privacy-mcp/src/privacy_mcp/core/audit.py:24-30 | no contract; stated by Audit.RecordFields, Audit.RecordKeys, Audit.NewRecordRecomputes, Audit.LogExtendsChain |
| Audit.RecordFields | privacy-mcp/src/privacy_mcp/core/audit.py:24-30 | the new record's `ts` is the timestamp, its `prev_hash` is the last hash (or null), its `hash` is SHA-256 of the previous hash text and the payload, and every other key keeps the event's value |
| Audit.RecordKeys | privacy-mcp/src/privacy_mcp/core/audit.py:25-30 | the record keeps the event's keys in order and adds only `ts`, `prev_hash` and `hash` |
| Audit.NewRecordRecomputes | privacy-mcp/src/privacy_mcp/core/audit.py:26-30 | a new record's hash can be recomputed from the record alone, and it links to the previous record's hash |
| Audit.LastHashOfChain | privacy-mcp/src/privacy_mcp/core/audit.py:15-22 | on a chained log, `_last_hash` is the hash stored in the last record |
| Audit.LogExtendsChain | privacy-mcp/src/privacy_mcp/core/audit.py:15-32 | appending a logged event to a chained log keeps it chained |
| Audit.AppendLinked | privacy-mcp/src/privacy_mcp/core/audit.py:29-32 | a record that recomputes and links to the last one extends a chain |
| Audit.ReplayKeepsChain | privacy-mcp/src/privacy_mcp/core/audit.py:15-32 | any sequence of `log` calls keeps a chained log chained, adds one line per call and leaves earlier lines untouched |
| Audit.Auditor.constructor | privacy-mcp/src/privacy_mcp/core/audit.py:7-9 | an auditor over the existing log lines |
| Audit.Auditor.Log | privacy-mcp/src/privacy_mcp/core/audit.py:24-32 | appends exactly one line, the stamped and hashed record, and nothing else changes |
| Patterns.SinShape | privacy-mcp/src/privacy_mcp/core/pii_detect.py:10 | a SIN match holds exactly nine digits and is 9 to 11 characters long |
| Patterns.CardShape | privacy-mcp/src/privacy_mcp/core/pii_detect.py:9 | a card match starts with a digit and holds 13 to 19 digits |
| Patterns.PhoneShape | privacy-mcp/src/privacy_mcp/core/pii_detect.py:8 | a phone match holds 7 to 13 digits |
| Patterns.EmailShape | privacy-mcp/src/privacy_mcp/core/pii_detect.py:7 | an e-mail match holds exactly one `@`, followed somewhere by a `.` |
| Patterns.ExampleAddress | privacy-mcp/tests/test_detect.py:4 | `alice@example.com` is in the e-mail pattern's language |
| Detect.MatcherAtSound | privacy-mcp/src/privacy_mcp/core/pii_detect.py:6-11 | every pattern's matches are well-formed spans in that pattern's language |
| Detect.SpanFindings | privacy-mcp/src/privacy_mcp/core/pii_detect.py:16-17 | one finding per match, with the label, the offsets and the matched text |
| Detect.DetectRegex | privacy-mcp/src/privacy_mcp/core/pii_detect.py:13-18 | the loops build exactly the findings of each pattern in turn, in the order of `REGEXES` |
| Detect.AppendFindings | privacy-mcp/src/privacy_mcp/core/pii_detect.py:16-17 | the inner loop appends one pattern's findings to those already found |
| Detect.RegexFindings | privacy-mcp/src/privacy_mcp/core/pii_detect.py:13-18 | no contract; stated by Detect.DetectRegex, Detect.RegexFindingsArranged, Detect.RegexFindingShapes, Detect.EveryMatchKept, Detect.MatchCount |
| Detect.RegexFindingsArranged | privacy-mcp/src/privacy_mcp/core/pii_detect.py:13-18 | every finding has a known label, non-empty in-bounds offsets and the matched text; findings are grouped by label in `REGEXES` order; findings of one label do not overlap |
| Detect.RegexFindingShapes | privacy-mcp/src/privacy_mcp/core/pii_detect.py:6-18 | each finding's text has its pattern's shape (digit counts, one `@`) |
| Detect.EveryMatchKept | privacy-mcp/src/privacy_mcp/core/pii_detect.py:15-17 | every match of every pattern appears among the findings |
| Detect.MatchCount | privacy-mcp/src/privacy_mcp/core/pii_detect.py:13-18 | the number of findings is the sum of the four patterns' match counts |
| Detect.UpToPrefix | privacy-mcp/src/privacy_mcp/core/pii_detect.py:15-17 | the findings after fewer patterns are a prefix of the findings after more |
| Detect.DetectPresidio | privacy-mcp/src/privacy_mcp/core/pii_detect.py:20-27 | no analyser gives no findings; otherwise one finding per result, with its type, offsets and Python slice of the text |
| Detect.DispatchUses | privacy-mcp/src/privacy_mcp/core/pii_detect.py:29-30 | with `use_presidio` false the entities and analyser do not matter; with it true the regex matchers do not, and a missing analyser gives none |
| Detect.Detected | privacy-mcp/src/privacy_mcp/core/pii_detect.py:29-30 | no contract; stated by Detect.DispatchUses, Detect.Detect |
| Detect.Detect | privacy-mcp/src/privacy_mcp/core/pii_detect.py:29-30 | returns the findings of the detector the flag selects |
| Detect.ContactExample | privacy-mcp/tests/test_detect.py:3-6 | an e-mail matcher reporting `alice@example.com` at 14..31 makes the first finding that EMAIL finding |
| Redact.InsertByStart | privacy-mcp/src/privacy_mcp/core/redact.py:6 | inserting keeps the same elements plus the new one and keeps the order by descending start |
| Redact.SortByStartDesc | privacy-mcp/src/privacy_mcp/core/redact.py:6 | `sorted(..., key=start, reverse=True)` is a permutation sorted by descending start |
| Redact.SortIsStable | privacy-mcp/src/privacy_mcp/core/redact.py:6 | findings with equal starts keep their original relative order |
| Redact.MaskSpan | privacy-mcp/src/privacy_mcp/core/redact.py:8-9 | no contract; stated by Redact.MaskAllIsUnion, Redact.RedactedAt |
| Redact.MaskAll | privacy-mcp/src/privacy_mcp/core/redact.py:8-9 | no contract; stated by Redact.MaskAllIsUnion, Redact.ApplyRedactions, Redact.RedactedAt, Redact.RedactedMask, Redact.ReapplyIsIdentity, Redact.OrderIrrelevant |
| Redact.MaskAllIsUnion | privacy-mcp/src/privacy_mcp/core/redact.py:8-9 | masking the spans one by one with a one-character token masks exactly the characters some span covers |
| Redact.ApplyRedactions | privacy-mcp/src/privacy_mcp/core/redact.py:4-10 | the count is the number of findings; the loop masks the sorted findings in turn; no findings leave the text unchanged; with a one-character token and in-bounds findings the length is kept and exactly the covered characters are masked |
| Redact.RedactedAt | privacy-mcp/src/privacy_mcp/core/redact.py:8-10 | each character of the output is the token when some finding covers it and the original character otherwise |
| Redact.RedactedMask | privacy-mcp/src/privacy_mcp/core/redact.py:4-10 | the output equals the union mask of the findings, in any input order |
| Redact.ReapplyIsIdentity | privacy-mcp/src/privacy_mcp/core/redact.py:4-10 | redacting an already redacted text with the same findings changes nothing |
| Redact.OrderIrrelevant | privacy-mcp/src/privacy_mcp/core/redact.py:6-9 | any reordering of the findings gives the same output |
| Redact.OverlapMasksUnion | privacy-mcp/src/privacy_mcp/core/redact.py:8-10 | two overlapping findings mask the same characters as their hull, one finding fewer |
| Server.DoRedact | privacy-mcp/src/privacy_mcp/server.py:80 | no contract; stated by Server.ReadRedacts |
| Server.Token | privacy-mcp/src/privacy_mcp/server.py:82 | no contract; stated by Server.ReadMasksFindings, Server.CopyMasksFindings |
| Server.ByteCap | privacy-mcp/src/privacy_mcp/server.py:78 | `max_bytes or pol["max_bytes"]`: a non-zero argument wins; otherwise the policy's number is used |
| Server.KeyNames | privacy-mcp/src/privacy_mcp/server.py:36 | the logged key list has one string per patch key, in order |
| Server.SetPolicyLogsKeysOnly | privacy-mcp/src/privacy_mcp/server.py:35-36 | the `set_policy` record holds no string besides the tool name and the patch's keys, so no patched value is logged |
| Server.SortNames | privacy-mcp/src/privacy_mcp/server.py:47 | `sorted(base.iterdir())` is a permutation of the entries in ascending string order |
| Server.InsertName | privacy-mcp/src/privacy_mcp/server.py:47 | inserting a name keeps the same names plus the new one and keeps ascending order |
| Server.CollectSound | privacy-mcp/src/privacy_mcp/server.py:47-52 | every listed item comes from one of the entries |
| Server.CollectInclude | privacy-mcp/src/privacy_mcp/server.py:47-52 | when the listing succeeds, every entry's items are in it |
| Server.ItemFor | privacy-mcp/src/privacy_mcp/server.py:48-52 | no contract; stated by Server.ItemForShape, Server.ItemsSound, Server.ItemsComplete |
| Server.ItemForShape | privacy-mcp/src/privacy_mcp/server.py:48-52 | a directory gives one item named `name/`; an allowed file gives one item named `name`; a refused file gives none |
| Server.ItemsSound | privacy-mcp/src/privacy_mcp/server.py:46-52 | every file item is an allowed file of the directory, and every directory item is a subdirectory |
| Server.ItemsComplete | privacy-mcp/src/privacy_mcp/server.py:46-52 | every subdirectory and every allowed file of the directory is listed |
| Server.ListItems | privacy-mcp/src/privacy_mcp/server.py:46-52 | the loop over the sorted entries builds exactly the listing |
| Server.ListDirOutcome | privacy-mcp/src/privacy_mcp/server.py:39-54 | no contract; stated by Server.ListDirLogs, Server.ItemsSound, Server.ItemsComplete, Server.Server.ListDir |
| Server.ListDirLogs | privacy-mcp/src/privacy_mcp/server.py:39-54 | a record is written exactly when the listing succeeds, and it counts the returned items; a path that is not a directory raises "Not a directory" with no record |
| Server.Target | privacy-mcp/src/privacy_mcp/server.py:71-73 | the resolved path of an existing file, or a root, escape or not-found error; a resolved path that is not a file gives exactly the not-found error |
| Server.ReadAllowed | privacy-mcp/src/privacy_mcp/server.py:78-92 | a successful read logs its path, `snipped` flag, finding count and redaction count; a failure is a policy type error and logs nothing |
| Server.ReadFile | privacy-mcp/src/privacy_mcp/server.py:64-92 | no contract; stated by Server.ReadFileLogs, Server.ReadStages, Server.Server.SafeReadFile |
| Server.ReadFileLogs | privacy-mcp/src/privacy_mcp/server.py:64-92 | `safe_read_file` writes a record exactly when it succeeds or is denied by policy, and writes the matching record in each case |
| Server.ReadStages | privacy-mcp/src/privacy_mcp/server.py:70-92 | a missing file raises "File not found" with no record; a refused file raises "Access denied by policy" after a denial record; an allowed file is read |
| Server.ReadRedacts | privacy-mcp/src/privacy_mcp/server.py:80-83 | redactions happen exactly when the flag (argument first, policy second) is on and there are findings; then they count the findings; otherwise the content is the decoded text unchanged |
| Server.ReadCap | privacy-mcp/src/privacy_mcp/server.py:78-79 | `snipped` holds exactly when the file exceeds the byte cap, and the findings are those of the decoded capped text |
| Server.ReadMasksFindings | privacy-mcp/src/privacy_mcp/server.py:78-83 | with regex detection and a one-character token, a redacted read has the text's length and masks exactly the characters a finding covers |
| Server.ReadLogsNoContent | privacy-mcp/src/privacy_mcp/server.py:74-91 | the records of `safe_read_file` hold no string besides the tool name and the requested path, so no file content reaches the log |
| Server.ReadAllowedText | privacy-mcp/src/privacy_mcp/server.py:78-92 | computes the read of an allowed file step by step |
| Server.CopyAllowed | privacy-mcp/src/privacy_mcp/server.py:104-111 | a successful copy logs the source, the destination and the count; the count is the number of findings; the destination is `str(Path("redacted") / (out_relpath or name + ".redacted.txt"))` (`DestString`): under `redacted/` for a relative name without `..`, and the name itself when it is absolute |
| Server.CopyFile | privacy-mcp/src/privacy_mcp/server.py:94-111 | no contract; stated by Server.CopyLogs, Server.CopyIgnoresRedactOnRead, Server.Server.CopyRedactedFile |
| Server.CopyLogs | privacy-mcp/src/privacy_mcp/server.py:94-111 | a record is written exactly when the copy succeeds; a refused source raises "Access denied by policy" and writes no record |
| Server.CopyMasksFindings | privacy-mcp/src/privacy_mcp/server.py:104-106 | with regex detection and a one-character token, the copy has the text's length and masks exactly the characters a finding covers |
| Server.CopyIgnoresRedactOnRead | privacy-mcp/src/privacy_mcp/server.py:104-106 | the copy always redacts: `redact_on_read` has no effect on it |
| Server.CopyAllowedIgnoresRedactOnRead | privacy-mcp/src/privacy_mcp/server.py:104-106 | the same for the copy of an allowed file |
| Server.CopyReply | privacy-mcp/src/privacy_mcp/server.py:111 | the reply carries the destination, the count and the findings, or the error |
| Server.AfterCopy | privacy-mcp/src/privacy_mcp/server.py:107-109 | a successful copy writes the redacted text at the resolved destination and changes no other file; a failed one writes nothing |
| Server.DestBelowRedacted | privacy-mcp/src/privacy_mcp/server.py:107-108 | a destination name that is relative and has no `..` lands inside `./redacted` |
| Server.DestString | privacy-mcp/src/privacy_mcp/server.py:107 | no contract; stated by Server.DestBelowRedacted, Server.DestAbsolute, Server.DestUp |
| Server.DestAbsolute | privacy-mcp/src/privacy_mcp/server.py:108 | an absolute `out_relpath` escapes `./redacted` and is written at that absolute path |
| Server.DestUp | privacy-mcp/src/privacy_mcp/server.py:108 | `../name` as `out_relpath` is written next to `./redacted`, in the working directory |
| Server.CopyAllowedText | privacy-mcp/src/privacy_mcp/server.py:104-111 | computes the copy of an allowed file step by step |
| Server.LoggedKeepsChain | privacy-mcp/src/privacy_mcp/core/audit.py:15-32 | logging an event without `prev_hash` keeps an intact hash chain intact and adds exactly one line; logging nothing keeps the log |
| Server.ToolEventsUnhashed | privacy-mcp/src/privacy_mcp/server.py:26-111 | no event any tool writes has a `prev_hash` key, so every tool's record extends the chain |
| Server.Server.constructor | privacy-mcp/src/privacy_mcp/server.py:21-22 | a server over a loaded policy and an auditor whose log is an intact hash chain, with no copies written yet; the class invariant then holds |
| Server.Server.Record | privacy-mcp/src/privacy_mcp/core/audit.py:24-32 | writes the outcome's event, if any, through the auditor, and keeps the hash chain intact when the event has no `prev_hash` |
| Server.Server.GetPolicy | privacy-mcp/src/privacy_mcp/server.py:26-30 | returns the policy data and logs one `get_policy` record; the policy stays valid and the log stays an intact hash chain |
| Server.Server.SetPolicy | privacy-mcp/src/privacy_mcp/server.py:32-37 | for a patch without repeated keys, as every Python dict is: patches and saves the policy, returns the new data and logs the patch's keys; the class invariant, hash chain included, is kept |
| Server.Server.ListDir | privacy-mcp/src/privacy_mcp/server.py:39-54 | returns the `list_dir` result and logs its event; the class invariant, hash chain included, is kept |
| Server.Server.ScanText | privacy-mcp/src/privacy_mcp/server.py:56-62 | returns the selected detector's findings and logs their count; the class invariant, hash chain included, is kept |
| Server.Server.SafeReadFile | privacy-mcp/src/privacy_mcp/server.py:64-92 | returns the `safe_read_file` result and logs its event; the class invariant, hash chain included, is kept |
| Server.Server.CopyRedactedFile | privacy-mcp/src/privacy_mcp/server.py:94-111 | returns the reply, records the written copy and logs the event; the class invariant, hash chain included, is kept |
| Server.Server.ResourceFile | privacy-mcp/src/privacy_mcp/server.py:115-119 | returns the content of `safe_read_file` with default arguments and its error otherwise, logging the same event; the class invariant, hash chain included, is kept |

## Left out

- `[...]` character classes in `fnmatch` patterns are not modelled; the policy's patterns use only `*`.
- The regular-expression engine is not modelled. Word boundaries (`\b`), lazy repetition, Unicode `\d`/`\s` and the exact choice among overlapping candidates are not captured: each matcher is known only to return well-formed, non-overlapping spans in its pattern's language (`Patterns`).
- Detect.DetectPresidio: the Presidio analyser is a parameter, and nothing about what it recognises is stated. `presidio_analyzer` is imported at module level, so the fallback to `[]` when the import fails cannot happen in the repository; the model keeps it as a missing analyser.
- The filesystem is a map from resolved paths to files and directories. Symbolic links, permissions, I/O errors and failures of `mkdir` or `write_text` are not modelled.
- Server.DestString: an `out_relpath` that starts with exactly two slashes, such as `//x`, keeps both slashes in the `dest` string `pathlib` returns and logs; the model gives `/x`. The file is written at the same place either way.
- Paths.RelativeTo: a `root_dir` that starts with exactly two slashes has the root `//` in `pathlib`, so `relative_to` raises ValueError for every resolved path; the model treats it like one slash and succeeds.
- JSON floating-point numbers are not modelled: `Value` has integers only. A policy `max_bytes` such as `2e6` passes the comparison in `read_text_safely` but makes the slice `raw[:max_bytes]` raise TypeError once a file exceeds it; the model has no such case.
- PolicyStore.Policy.Patch: `patch` returns the policy's own dict object; the model returns its value, so later aliasing of that dict is not captured.
- Server.Server.CopyRedactedFile: redacted copies are recorded in a `written` map apart from the sandbox filesystem the tools read.
- Concurrency between tool calls and the FastMCP registration and transport are not modelled. The `cli` command and demo/generate.py are not part of this model.
- SHA-256, `json.dumps`, `time.strftime` and UTF-8 decoding with replacement are parameters; nothing is assumed about them.
- Audit.LastHash: a `hash` that is present but not a string is treated as absent. Appending to the file and reading back its last line are modelled as one list of parsed lines, each record reading back whole.
- Audit.LastHashOfChain: holds only under that abstraction. `json.dumps(..., ensure_ascii=False)` leaves U+0085, U+2028 and U+2029 unescaped, and `splitlines()` splits at them. After a record holding one of them, for instance the key `"a\u2028b"` that `set_policy` logs, the source's `_last_hash` reads a fragment, fails to parse it and returns None.
- Audit.LogExtendsChain: for the same reason, the record logged after such a record has `prev_hash` null and a hash over the payload alone, so the source's chain breaks there; the lemma assumes every record reads back whole.
- Audit.ReplayKeepsChain: the same break applies to every sequence of `log` calls that includes such a record.
- PolicyStore.Load: `dict.update` also takes a list element that is a two-key JSON object, pairing its two keys in insertion order; the model's objects are unordered, so it rejects such an element. A pair whose key is a number, boolean or null adds a non-string key in Python; the model leaves the string-keyed policy unchanged, and does not follow that key through `save`.
- Python's `KeyError` and `TypeError` for a missing or mistyped policy field are both modelled as `WrongType(field)`. A policy file whose JSON `dict.update` cannot take (a number, boolean, null, non-empty string, or a list element that is not a pair) is modelled as `MalformedPolicy`.
- Redact.ApplyRedactions: for a token longer than one character, only the count and the no-findings case are stated; the pointwise masking is stated for one-character tokens (the policy default `█` is one).
- Server.ReadMasksFindings: stated for regex detection only, where findings are known to be in bounds; Presidio offsets are not constrained.
- Server.CopyMasksFindings: stated for regex detection only, for the same reason.
- Server.Server.SafeReadFile: the audit record is appended after the result is computed; the order of reading and logging within the call is not observable in the model.
