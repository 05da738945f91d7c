# SCVersionList manifest tools, modelled in Dafny

This project models two small scripts that maintain the download manifest of
the SCVersionList archive collection.

- **generate_github.py** scans three folders: `API`, `NET` and `Original`.
  - It takes each `.zip` (any case) archive and each archive with a one-letter
    `7`, `z` or `Z` extension.
  - From the file name it reads a *main version* (`SCx<d>.<d>`) and a
    folder-specific *sub-version*.
  - It builds a GitHub download path from those pieces.
  - It groups the records by main version.
  - It sorts each group by the integers in the sub-version, largest first and
    stably.
  - It orders the groups by the dotted main version, largest first, with
    `"unknown"` last.
  - The result is a manifest with the keys `api`, `net` and `original`. A
    missing folder gives `null`.
- **gitee.py** walks a loaded manifest. It rewrites every value stored under a
  `path` key, at any depth, to point at the Gitee mirror. It does this with
  two replace-all steps in a fixed order: `github.com/jxsm` becomes
  `gitee.com/jxsmjxee`, then `refs/heads/main` becomes `main`.

## Modules

| file | module | contents |
|---|---|---|
| `wrappers.dfy` | `Wrappers` | `Option` and `Result`. |
| `text.dfy` | `Text` | Python string operations on ASCII: `split` on one character, `re.findall(r"\d+")`, `int()`, `str.replace`, `rfind` and the `PurePath.suffix` rule. |
| `regex.dfy` | `Regex` | The four `re.search` patterns. `CaptureAt` states what a match captures at one index. `Search` is a leftmost scanner, proved to return exactly the leftmost capture. |
| `ordering.dfy` | `Ordering` | Python's `<` on integer lists, and `sort(key=…, reverse=True)` as a stable insertion sort. The sort is proved sorted, a permutation and stable, and those three properties are proved to determine it. |
| `records.dfy` | `Records` | `parse_file_info` and the sort keys `version_cmp` and `main_version_cmp`. |
| `manifest.dfy` | `ManifestBuilder` | `generate_json_manifest` as methods with loops. Each method is proved equal to a functional specification. Lemmas cover grouping, ordering and the manifest's shape. |
| `examples_manifest.dfy` | `ManifestExamples` | Worked inputs: a parsed file name, a sub-version ordering, the main-version ordering, and the `NotOpenGLES` and leading-zero ties. |
| `json.dfy` | `Json` | The loaded JSON document. A mapping keeps its insertion order. The type itself allows a key twice; the predicate `UniqueKeys` states that every mapping, at any depth, has distinct keys, and `ProcessTree` requires it. |
| `rewriter.dfy` | `MirrorRewriter` | `process_dict` as recursive methods with loops, proved equal to `Rewrite`. `Rewrite` is characterised by what it keeps and by what it does to the `path` values. |

## How the rewrite is characterised

`Blank(j)` is the document with every value under a `path` key replaced by
`null`. `Paths(j)` lists those values in document order.

`MirrorRewriter.RewriteCharacterized` proves that `Rewrite(j) == Ok(r)` holds
exactly when all three of these hold:

- every path value of `j` is a string;
- `Blank(r) == Blank(j)`. Every key, the key order, every list length and
  order, and every value not under `path` are unchanged;
- `Paths(r)` is `Paths(j)` with each string rewritten.

## Model

| member | source | states |
|---|---|---|
| Records.Tagged | generate_github.py:28-30 | The result is `tag` plus the capture of the leftmost match, or "unknown" exactly when the pattern matches nowhere. |
| Records.MainVersion | generate_github.py:22-23 | `main_version` is the capture of the leftmost `SCx<d>.<d>` match, or "unknown" when there is none. |
| Records.SubVersion | generate_github.py:26-40 | For API: "API" plus the leftmost capture, or "unknown", with "NotOpenGLES" appended whenever the name contains it. For NET: "NET" plus the four-run capture with its optional letter. For Original: "Original" plus the two- or three-run capture. Any other folder gives "unknown". |
| Records.ParseFileInfo | generate_github.py:15-58 | The record has the main version, the sub-version, the suffix-derived format, the entry's own size and digest, an empty `illustrate`, and the path `GithubBase + folder + "%2F" + main + "%20" + sub + "." + format`. |
| Records.OpenGLESSuffix | generate_github.py:31-32 | The suffix is "NotOpenGLES" exactly when the name contains it, and empty otherwise. It has no digit, so it never changes a sort key. |
| Records.FileKey | generate_github.py:97-99 | `version_cmp` of a file detail is a non-empty list of non-negative integers. |
| Records.MainKeyOf | generate_github.py:104-108 | The key is `[-1]` exactly for "unknown". Every other main version gets non-negative integers only. |
| Records.SubKey | generate_github.py:97-99 | `version_cmp` is a non-empty list of non-negative integers. |
| Records.MainKey | generate_github.py:104-108 | "unknown" maps to `[-1]`. Any other version maps to one non-negative integer per dot-separated part. |
| Records.MainVersionValid | generate_github.py:104-108 | Every main version `parse_file_info` produces is "unknown" or dot-separated digit runs, so `int()` never fails on it. |
| Records.UnknownLast | generate_github.py:105-106 | The key of "unknown" is below the key of every readable main version. |
| Records.SubKeyNoDigits | generate_github.py:98-99 | A sub-version without digits has the key `[0]`. |
| Records.SubKeyOpenGLESTie | generate_github.py:31-32 | Appending "NotOpenGLES" does not change the sort key. |
| Regex.Groups | generate_github.py:22 | The greedy digit-group match, when it exists, ends inside the string after its start. |
| Regex.MatchAt | generate_github.py:22 | A match at one index starts with the pattern's literal prefix, followed directly by a non-empty capture. `MatchAtCorrect` proves it returns exactly the capture at that index. |
| Regex.SearchFrom | generate_github.py:22 | Scanning from `i` returns a capture at or after `i`, and one at or before every capture at or after `i`. |
| Regex.Search | generate_github.py:22 | `re.search` returns a capture at its position, and there is a result at or before every position where the pattern matches. |
| Regex.GroupsSound | generate_github.py:22 | What `Groups` returns is a greedy span of dotted digit runs. |
| Regex.GroupsComplete | generate_github.py:22 | Every greedy span of dotted digit runs is what `Groups` returns. |
| Regex.MatchAtCorrect | generate_github.py:22 | Trying the pattern at one index returns `c` exactly when `c` is the capture there. |
| Regex.CaptureUnique | generate_github.py:22 | At one index there is at most one capture. |
| Regex.SearchMeaning | generate_github.py:22-23 | A found match is the leftmost capture. There is no match exactly when the pattern matches nowhere. |
| Regex.LeftmostUnique | generate_github.py:22-23 | The leftmost capture is unique. |
| Regex.CaptureDotted | generate_github.py:22 | Without the optional letter, a capture is between `lo` and `hi` digit runs joined by single dots. |
| Text.Split | generate_github.py:107 | `split('.')` gives at least one piece, and no piece contains the separator. |
| Text.SplitJoin | generate_github.py:107 | Joining the pieces of a split gives back the string. |
| Text.JoinSplit | generate_github.py:107 | Splitting a join of separator-free pieces gives back the pieces. |
| Text.SplitCons | generate_github.py:107 | The first separator ends the first piece. |
| Text.DigitRuns | generate_github.py:98 | Every element of `re.findall(r"\d+")` is a non-empty run of digits. |
| Text.DigitRunsSplit | generate_github.py:98 | A run never reaches across a non-digit: the runs of `x + [c] + y` are those of `x` followed by those of `y`. |
| Text.DigitRunsOfDigits | generate_github.py:98 | A string of digits is a single run. |
| Text.DecimalValue | generate_github.py:108 | `int()` of a digit string of length n is below 10^n. It is at least 10^(n-1) when the first digit is not zero. |
| Text.DecimalRoundTrip | generate_github.py:108 | `int(str(n)) == n`: the value of a number's decimal text is that number. |
| Text.DecimalStringRoundTrip | generate_github.py:108 | `str(int(t)) == t` for a digit string without a leading zero, so `int()` is one-to-one on such strings. |
| Text.Contains | generate_github.py:31 | `"NotOpenGLES" in file_name`: the empty string is in every string. A string of equal length is contained exactly when it is equal. Nothing longer is contained. |
| Text.DecimalValueLeadingZero | generate_github.py:108 | `int()` ignores a leading zero. |
| Text.LastIndexOf | generate_github.py:19 | `rfind` returns the last index holding the character, or none when the character does not occur. |
| Text.FileFormat | generate_github.py:19 | The format has no dot. It is empty exactly when the name has no dot after its first character, or ends with a dot. Otherwise the name is `stem + "." + format`. |
| Text.FileFormatOf | generate_github.py:19 | `"stem.ext"` has format `"ext"` when `ext` has no dot and neither part is empty. |
| Text.ReplaceAll | gitee.py:21-27 | `str.replace`: the result is no longer than the input when the replacement is no longer than the pattern, and no shorter when the replacement is no shorter. `ReplaceFirst`, `ReplaceAbsent` and `ReplaceNoOverlap` pin down the rest. |
| Text.ReplaceAbsent | gitee.py:21-27 | `replace` leaves a string without the pattern unchanged. |
| Text.ReplaceSkip | gitee.py:21-27 | A prefix without the pattern's first character is copied unchanged. |
| Text.ReplaceFirst | gitee.py:21-27 | The text before the first occurrence is copied, that occurrence is replaced, and the scan resumes after it. |
| Text.ReplaceNoOverlap | gitee.py:21-27 | Occurrences do not overlap: replacing "aa" by "b" in "aaa" gives "ba". |
| Ordering.LessIrreflexive | generate_github.py:101 | No key is below itself. |
| Ordering.LessTransitive | generate_github.py:101 | List comparison is transitive. |
| Ordering.LessTotal | generate_github.py:101 | Any two different keys are ordered one way or the other. |
| Ordering.LessAsymmetric | generate_github.py:101 | At most one of `a < b` and `b < a` holds. |
| Ordering.Less | generate_github.py:101 | Python's `<` on integer lists: nothing is below the empty list, and the empty list is below every other list. |
| Ordering.LessCharacterized | generate_github.py:101 | `a < b` exactly when `a` is a proper prefix of `b`, or the two agree up to a first difference where `a` is smaller. |
| Ordering.SortDescending | generate_github.py:101 | `sort(key=…, reverse=True)` keeps the list's length. `SortDescendingSorted`, `SortDescendingPermutation` and `SortDescendingStable` state the rest, and `SortDescendingCharacterized` proves that those three determine it. |
| Ordering.InsertWithKey | generate_github.py:101 | Inserting into a descending list puts the item after every earlier item that has its key. |
| Ordering.SortDescendingSorted | generate_github.py:101 | After `sort(reverse=True)` no item has a smaller key than an item after it. |
| Ordering.SortDescendingPermutation | generate_github.py:101 | The sort is a permutation of its input. |
| Ordering.SortDescendingStable | generate_github.py:101 | The items that share a key keep their relative order. |
| Ordering.DescendingUnique | generate_github.py:101 | Two descending lists that agree on the order of the items of every key are equal. |
| Ordering.SortDescendingCharacterized | generate_github.py:101 | Any descending arrangement that keeps the per-key order of the input is the sort's result. |
| Ordering.Apply | generate_github.py:112 | The comprehension has one image per item, in order. |
| Ordering.SortApply | generate_github.py:111-112 | Sorting the images by their key is mapping the items after sorting them by the corresponding key. |
| Ordering.SortNoDuplicates | generate_github.py:111 | Sorting keeps a duplicate-free list duplicate-free. |
| ManifestBuilder.GlobFilter | generate_github.py:81-82 | An entry is kept exactly when its name matches the glob. |
| ManifestBuilder.FilterAppend | generate_github.py:81-83 | Filtering keeps order: filtering two stretches gives the first stretch's kept items, then the second's. |
| ManifestBuilder.GlobMatches | generate_github.py:81-82 | The name test of the two globs: `*.[zZ][iI][pP]` accepts a name ending in a dot and "zip" in any case, and `*.[7zZ]` accepts a name ending in a dot and one of `7`, `z` or `Z`. |
| ManifestBuilder.GlobMatchFormat | generate_github.py:19 | A name picked by the zip glob has those three letters as its `file_format`, and one picked by `*.[7zZ]` has that one character, whenever the name is longer than the dotted extension. |
| ManifestBuilder.GlobFilterAppend | generate_github.py:81-82 | The glob keeps listing order: filtering two stretches of a listing gives the first stretch's matches, then the second's. |
| ManifestBuilder.Candidates | generate_github.py:81-83 | An entry is a candidate exactly when it matches the zip glob or the `*.[7zZ]` glob. |
| ManifestBuilder.ScanRecords | generate_github.py:85-87 | Every record comes from a regular file of the folder, parsed with the folder's name, and every regular file gives its record. |
| ManifestBuilder.ScanRecordsAppend | generate_github.py:85-87 | The records keep the files' order: scanning two stretches of files gives the first stretch's records, then the second's. |
| ManifestBuilder.ScanRecordsNoFiles | generate_github.py:85-87 | Entries none of which is a regular file give no record. |
| ManifestBuilder.FindGroup | generate_github.py:91 | `main_version in version_group`: the index of the group with that key, or none when no group has it. |
| ManifestBuilder.FilesWithMain | generate_github.py:91-93 | Every file in a group comes from a record with that main version. |
| ManifestBuilder.AddRecord | generate_github.py:91-93 | Adding a record adds at most one group and keeps every existing key where it was. The record's main version is a key afterwards. |
| ManifestBuilder.MainsAddRecord | generate_github.py:91-93 | The keys stay as they were when the main version is already one. Otherwise it is appended at the end. |
| ManifestBuilder.GroupAll | generate_github.py:85-93 | There are no more groups than records, and at least one group when there is a record. |
| ManifestBuilder.FirstSeen | generate_github.py:91-92 | The distinct values of a list, without duplicates and with the same members. |
| ManifestBuilder.FirstSeenOrder | generate_github.py:91-92 | The values come in the order of their first occurrence: a later value does not occur before the first occurrence of an earlier one. |
| ManifestBuilder.GroupAllOrder | generate_github.py:85-93 | The keys of `version_group` are the distinct main versions, in the order in which each first occurs among the scanned records. |
| ManifestBuilder.SortEachGroup | generate_github.py:96-101 | The number of groups, each key and the length of each list are unchanged. |
| ManifestBuilder.OrderGroups | generate_github.py:110-113 | Ordering the groups keeps their number. `OrderGroupsSpec` proves them descending and a permutation. |
| ManifestBuilder.Rebuild | generate_github.py:112 | Rebuilding the dictionary from the sorted keys keeps the number of groups. `RebuildOrders` proves it equals the sorted groups. |
| ManifestBuilder.FolderGroups | generate_github.py:79-113 | A folder without regular files gives an empty group mapping. `FolderGroupsPartition`, `FolderGroupsFilesOrder` and `FolderGroupsOrder` state the rest. |
| ManifestBuilder.Manifest | generate_github.py:62-77 | One section per target folder, with that folder's key, in the order `API`, `NET`, `Original`. |
| ManifestBuilder.SectionFor | generate_github.py:70-115 | One pass of the folder loop: the section has the folder's key, and it is null exactly when the folder is missing. |
| ManifestBuilder.GenerateManifest | generate_github.py:60-117 | The loop over the target folders builds exactly `Manifest(listing)`. |
| ManifestBuilder.BuildSection | generate_github.py:70-115 | One pass of the folder loop builds that folder's section: null for a missing folder, otherwise its grouped and sorted files. |
| ManifestBuilder.ScanFolder | generate_github.py:85-93 | The scanning loop builds `GroupAll` of the parsed regular files, and its keys are distinct. |
| ManifestBuilder.SortGroupFiles | generate_github.py:96-101 | The loop sorts every group's list by `version_cmp`, largest first, and keeps the keys. |
| ManifestBuilder.SortGroupKeys | generate_github.py:110-113 | Sorting the keys and rebuilding the dictionary gives the groups sorted by `main_version_cmp`. |
| ManifestBuilder.ScanStep | generate_github.py:85-93 | A regular file adds its record to its group. Any other entry changes nothing. |
| ManifestBuilder.AddToGroup | generate_github.py:91-93 | Appending to an existing group keeps `version_group` a grouping of the records seen. |
| ManifestBuilder.AddNewGroup | generate_github.py:91-93 | Opening a new group at the end for an unseen main version keeps `version_group` a grouping of the records seen. |
| ManifestBuilder.AddRecordGrouped | generate_github.py:91-93 | Appending a record keeps `version_group` a grouping of the records seen: distinct keys, each list exactly its records in scan order, and no record without a group. |
| ManifestBuilder.GroupAllGrouped | generate_github.py:85-93 | After the loop, each main version has one non-empty group holding exactly its records in scan order. |
| ManifestBuilder.SortEachGroupMains | generate_github.py:96-101 | Sorting the lists leaves the keys, and their distinctness, unchanged. |
| ManifestBuilder.SortEachGroupSorted | generate_github.py:96-101 | Each list ends up descending by `version_cmp`, a permutation of what it held, with equal keys in their old order. |
| ManifestBuilder.OrderGroupsSpec | generate_github.py:111-113 | Ordering the groups gives descending keys and a permutation of the groups. The key sequence is the sorted keys, and the keys stay distinct. |
| ManifestBuilder.LookupMember | generate_github.py:112 | `version_group[ver]` for a present key is that key's list. |
| ManifestBuilder.RebuildOrders | generate_github.py:111-113 | The dictionary rebuilt from the sorted keys equals the groups sorted by key. |
| ManifestBuilder.ScanRecordsValid | generate_github.py:104-108 | Every scanned main version can be converted by `main_version_cmp`. |
| ManifestBuilder.FolderGroupOrigin | generate_github.py:85-113 | Each final group is a scanned group with its list sorted. That list holds exactly the records of its main version. |
| ManifestBuilder.FolderGroupsPartition | generate_github.py:85-93 | Final keys are distinct. Every scanned record's main version is a key. Each group is non-empty and holds exactly its main version's records. |
| ManifestBuilder.FolderGroupsFilesOrder | generate_github.py:96-101 | Each final list is descending by `version_cmp`, and files with equal keys keep scan order. |
| ManifestBuilder.UnknownAtEnd | generate_github.py:104-106 | In a descending order of valid groups, only "unknown" can follow "unknown". |
| ManifestBuilder.FolderGroupsValid | generate_github.py:104-108 | Every final key is "unknown" or dot-separated digit runs. |
| ManifestBuilder.FolderGroupsOrder | generate_github.py:104-113 | The final groups are descending by main version, and "unknown", if present, is last. |
| ManifestBuilder.ManifestShape | generate_github.py:62-77 | The manifest has exactly the keys `api`, `net` and `original`, in that order. A section is null exactly when its folder is missing. Otherwise it holds that folder's groups. |
| ManifestExamples.SampleMain | generate_github.py:22-23 | The main version of "SCx2.4API1.8.1.0.zip" is "2.4". |
| ManifestExamples.SampleApiSearch | generate_github.py:28 | The API search in that name finds "1.8.1.0" at index 6. |
| ManifestExamples.SampleSub | generate_github.py:26-32 | Its API sub-version is "API1.8.1.0". |
| ManifestExamples.SampleFormat | generate_github.py:19 | Its format is "zip". |
| ManifestExamples.ParseSample | generate_github.py:15-58 | The full record of that file in the API folder, including the path `.../API%2F2.4%20API1.8.1.0.zip`. |
| ManifestExamples.ApiKey | generate_github.py:97-99 | The key of "API" + a + "." + b is `[int(a), int(b)]`. |
| ManifestExamples.SubVersionOrder | generate_github.py:101 | API1.2, API1.10 and API1.9 sort as API1.10, API1.9, API1.2: numbers, not text. |
| ManifestExamples.OpenGLESTieOrder | generate_github.py:31-32 | A sub-version and its "NotOpenGLES" twin tie, so they keep scan order either way round. |
| ManifestExamples.MainKeyTwo | generate_github.py:107-108 | The key of "a.b" is `[int(a), int(b)]`. |
| ManifestExamples.LeadingZeroTieOrder | generate_github.py:104-111 | `int()` ignores leading zeros, so "a.t" and "a.0t" have the same key and keep their first-seen order either way round. |
| ManifestExamples.MainVersionOrder | generate_github.py:111 | ["2.3", "2.10", "unknown", "2.4"] sorts as ["2.10", "2.4", "2.3", "unknown"]. |
| Json.KeyIndex | gitee.py:19-21 | `'path' in d` and `d['path']`: the index of the member with that key, or none when no member has it. |
| MirrorRewriter.ProcessTree | gitee.py:16-34 | The walk returns exactly `Rewrite(d)`. |
| MirrorRewriter.ProcessMapping | gitee.py:17-30 | The mapping branch rewrites `path`, then walks every value, and returns `RewriteMembers`. A non-string path is an error. |
| MirrorRewriter.ProcessList | gitee.py:31-34 | The list branch walks every item in order and returns `RewriteItems`. |
| MirrorRewriter.ItemsErr | gitee.py:33-34 | An error in one item is an error of the whole list. |
| MirrorRewriter.MembersErr | gitee.py:19-30 | A non-string path, or an error in one value, is an error of the whole mapping. |
| MirrorRewriter.MembersSnoc | gitee.py:29-30 | Walking one more member appends its rewritten form. |
| MirrorRewriter.RewriteSpec | gitee.py:16-34 | The rewrite succeeds exactly when every path value is a string. It then keeps the blanked document and rewrites each path. |
| MirrorRewriter.RewriteItemsSpec | gitee.py:31-34 | The same, for a list's items. |
| MirrorRewriter.RewriteMemberSpec | gitee.py:19-27 | The same, for one member. A `path` member with a string is rewritten, and one with anything else fails. |
| MirrorRewriter.RewriteMembersSpec | gitee.py:28-30 | The same, for a mapping's members. |
| MirrorRewriter.RewritePath | gitee.py:21-27 | A path holding neither "github.com/jxsm" nor "refs/heads/main" is unchanged. `RewriteGithubBase` states what happens to the GitHub base. |
| MirrorRewriter.Rewrite | gitee.py:16-34 | A success keeps a list a list of the same length, and a mapping a mapping with the same number of members. Strings, numbers, booleans and null come back unchanged. |
| MirrorRewriter.RewriteMember | gitee.py:19-27 | A success keeps the member's key. A `path` member succeeds exactly when its value is a string. |
| MirrorRewriter.RewriteItems | gitee.py:31-34 | `for item in d: process_dict(item)`: a success keeps the list's length. `RewriteItemsSpec` and `ItemsErr` state the rest. |
| MirrorRewriter.RewriteMembers | gitee.py:28-30 | The walk over `d.items()`: a success keeps the number of members and each member's key in its place. `RewriteMembersSpec` and `MembersErr` state the rest. |
| MirrorRewriter.Determined | gitee.py:16-34 | A document is determined by its blanked form and its path values. |
| MirrorRewriter.RewriteCharacterized | gitee.py:16-34 | `Rewrite(j) == Ok(r)` exactly when all paths are strings, `r` blanks like `j`, and `r`'s paths are `j`'s rewritten. |
| MirrorRewriter.RewriteUntouched | gitee.py:16-34 | A document whose paths are all such strings comes back unchanged. |
| MirrorRewriter.RewriteGithubBase | gitee.py:21-27 | The GitHub download base becomes "https://gitee.com/jxsmjxee/SCVersionList/raw/main/", and the rest is rewritten on its own. |
| MirrorRewriter.MirroredFilePath | generate_github.py:44 | The path of any parsed file comes out with the Gitee base, followed by the rewritten folder, version and format part. |
| MirrorRewriter.RewriteNotIdempotent | gitee.py:21-27 | "refs/heads/refs/heads/mainmain" becomes "refs/heads/mainmain", which a second pass changes again. |

## Left out

- The SHA-256 computation (`calculate_sha256`) is a foreign hash call. The digest is an input field of each `Entry`.
- File system access is not modelled: `exists`, `is_dir`, `glob`, `stat` and `is_file`. A `Listing` gives, for each present folder, its entries in listing order with their size, digest and regular-file flag.
- The globs are modelled as written. `*.[7zZ]` matches only one-character extensions, so `.7z` archives are not picked up.
- JSON encoding and decoding (`json.dumps`, `json.load`, `json.dump`) and the 4-space indentation are not modelled. The manifest is a `seq<Section>`, and the loaded document is a `Json` value.
- Progress and warning prints, file writes and the `__main__` blocks are left out.
- `url_safe_name` is computed but never used, so it is not modelled and there is no percent-encoding property.
- Digits are ASCII only. Python's `\d` and `int()` also accept other Unicode decimal digits.
- `FileFormat` follows the `PurePath.suffix` rule: the text after the last dot, unless that dot is the first or the last character. The result has no leading dot, as after `lstrip(".")`.
- Records.MainKeyOf: returns an empty key where `int()` would raise. `MainVersionValid` proves that this case never arises for a parsed main version.
- MirrorRewriter.ProcessTree: the walk returns the new tree instead of changing the loaded tree in place. On an error, the paths already rewritten before the `AttributeError` are not kept.
- MirrorRewriter.ProcessTree: requires `UniqueKeys`, because a loaded Python `dict` never holds a key twice.
- MirrorRewriter.Error: the exception is reduced to one error value, `PathNotString`, with no message or traceback.
- The gitee rewrite is not idempotent in general: `RewriteNotIdempotent` shows an input where a second pass changes the result, so no idempotence lemma is stated.
- JSON numbers are kept as their literal text. Nothing computes with them.
