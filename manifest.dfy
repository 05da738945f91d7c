/**
  * `generate_json_manifest` of generate_github.py: for each of the folders
  * API, NET and Original, the archive files found in it are parsed, grouped
  * by main version in the order the versions are first seen, each group's
  * records sorted by sub-version (largest first, stably), and the groups
  * ordered by main version (largest first, "unknown" last).
  *
  * The root directory is a `Listing`: for each folder that exists and is a
  * directory, its entries in the order the file system lists them.
  */
module ManifestBuilder {
  import opened Wrappers
  import opened Text
  import opened Ordering
  import opened Records

  type Listing = map<string, seq<Entry>>

  /** One main version and its records, as in `version_group`. */
  datatype Group = Group(mainVersion: string, files: seq<FileInfo>)

  /** One top-level manifest entry: the key and, unless the folder is missing, its groups. */
  datatype Section = Section(key: string, groups: Option<seq<Group>>)

  /** One element of `target_folders`. */
  datatype Folder = Folder(name: string, key: string)

  const TargetFolders := [Folder("API", "api"), Folder("NET", "net"), Folder("Original", "original")]

  // ---------------------------------------------------------------------
  // Scanning a folder
  // ---------------------------------------------------------------------

  /** The two glob patterns: "*.[zZ][iI][pP]" and "*.[7zZ]". */
  datatype Glob = ZipGlob | SevenZipGlob

  predicate GlobMatches(g: Glob, name: string) {
    var n := |name|;
    match g
    case ZipGlob =>
      n >= 4 && name[n - 4] == '.' && name[n - 3] in "zZ" && name[n - 2] in "iI" && name[n - 1] in "pP"
    case SevenZipGlob =>
      n >= 2 && name[n - 2] == '.' && name[n - 1] in "7zZ"
  }

  /** The items of `xs` that `keep` accepts, in their order. */
  function Filter<T>(xs: seq<T>, keep: T -> bool): seq<T> {
    if xs == [] then []
    else
      var last := xs[|xs| - 1];
      Filter(xs[..|xs| - 1], keep) + (if keep(last) then [last] else [])
  }

  function Matches(g: Glob): Entry -> bool {
    (e: Entry) => GlobMatches(g, e.name)
  }

  /**
    * A name the zip glob picks has "zip", in any case, as its format, and one
    * the `*.[7zZ]` glob picks has that one character, unless the dot is the
    * name's first character.
    */
  lemma GlobMatchFormat(g: Glob, name: string)
    requires GlobMatches(g, name)
    ensures g == ZipGlob && |name| > 4 ==> FileFormat(name) == name[|name| - 3..]
    ensures g == SevenZipGlob && |name| > 2 ==> FileFormat(name) == name[|name| - 1..]
  {
  }

  /** `list(folder_path.glob(pattern))`: the matching entries, in listing order. */
  function GlobFilter(entries: seq<Entry>, g: Glob): (r: seq<Entry>)
    ensures forall e :: e in r <==> e in entries && GlobMatches(g, e.name)
  {
    FilterMembers(entries, Matches(g));
    Filter(entries, Matches(g))
  }

  lemma {:induction false} FilterMembers<T>(xs: seq<T>, keep: T -> bool)
    ensures forall x :: x in Filter(xs, keep) <==> x in xs && keep(x)
    decreases |xs|
  {
    if xs != [] {
      var init := xs[..|xs| - 1];
      FilterMembers(init, keep);
      assert xs == init + [xs[|xs| - 1]];
    }
  }

  /**
    * `all_files`: the zip archives first, then the single-letter extensions.
    * An entry is a candidate exactly when its name matches one of the two globs.
    */
  function Candidates(entries: seq<Entry>): (r: seq<Entry>)
    ensures forall e :: e in r <==>
      e in entries && (GlobMatches(ZipGlob, e.name) || GlobMatches(SevenZipGlob, e.name))
  {
    GlobFilter(entries, ZipGlob) + GlobFilter(entries, SevenZipGlob)
  }

  function IsRegular(e: Entry): bool { e.isFile }

  function Parser(folder: string): Entry -> Record {
    (e: Entry) => ParseFileInfo(e, folder)
  }

  /** `parse_file_info` of each regular file among `files`, in their order. */
  function ScanRecords(folder: string, files: seq<Entry>): (rs: seq<Record>)
    ensures forall r :: r in rs ==> exists e :: e in files && e.isFile && r == ParseFileInfo(e, folder)
    ensures forall e :: e in files && e.isFile ==> ParseFileInfo(e, folder) in rs
  {
    ScanRecordsMembers(folder, files);
    Apply(Parser(folder), Filter(files, IsRegular))
  }

  lemma ScanRecordsMembers(folder: string, files: seq<Entry>)
    ensures forall r :: r in Apply(Parser(folder), Filter(files, IsRegular)) ==>
      exists e :: e in files && e.isFile && r == ParseFileInfo(e, folder)
    ensures forall e :: e in files && e.isFile ==> ParseFileInfo(e, folder) in Apply(Parser(folder), Filter(files, IsRegular))
  {
    var regular := Filter(files, IsRegular);
    var rs := Apply(Parser(folder), regular);
    FilterMembers(files, IsRegular);
    forall r | r in rs ensures exists e :: e in files && e.isFile && r == ParseFileInfo(e, folder) {
      var i :| 0 <= i < |rs| && rs[i] == r;
      assert regular[i] in regular;
    }
    forall e | e in files && e.isFile ensures ParseFileInfo(e, folder) in rs {
      assert e in regular;
      var i :| 0 <= i < |regular| && regular[i] == e;
      assert rs[i] == ParseFileInfo(e, folder);
    }
  }

  /** Entries none of which is a regular file give no record. */
  lemma ScanRecordsNoFiles(folder: string, files: seq<Entry>)
    requires forall e :: e in files ==> !e.isFile
    ensures ScanRecords(folder, files) == []
  {
    FilterMembers(files, IsRegular);
    var regular := Filter(files, IsRegular);
    if regular != [] {
      assert regular[0] in regular;
    }
  }

  // ---------------------------------------------------------------------
  // Grouping
  // ---------------------------------------------------------------------

  function MainOf(g: Group): string { g.mainVersion }

  /** The main versions of the groups, in order: `list(version_group.keys())`. */
  function Mains(groups: seq<Group>): seq<string> {
    Apply(MainOf, groups)
  }

  /** Dictionary keys are unique. */
  ghost predicate DistinctMains(groups: seq<Group>) {
    NoDuplicates(Mains(groups))
  }

  /** Where the group of main version `v` sits, if there is one. */
  function FindGroup(groups: seq<Group>, v: string): (r: Option<nat>)
    ensures r.Some? ==> r.value < |groups| && groups[r.value].mainVersion == v
    ensures r.None? ==> forall i :: 0 <= i < |groups| ==> groups[i].mainVersion != v
  {
    if groups == [] then None
    else if groups[|groups| - 1].mainVersion == v then Some(|groups| - 1)
    else FindGroup(groups[..|groups| - 1], v)
  }

  /**
    * `version_group[main_version].append(file_detail)`, opening the group at
    * the end if it is new: the groups there were keep their keys and places,
    * at most one group is added, and the record's main version has a group.
    */
  function AddRecord(groups: seq<Group>, r: Record): (res: seq<Group>)
    ensures |groups| <= |res| <= |groups| + 1
    ensures forall i :: 0 <= i < |groups| ==> res[i].mainVersion == groups[i].mainVersion
    ensures r.mainVersion in Mains(res)
  {
    match FindGroup(groups, r.mainVersion)
    case Some(i) => groups[i := Group(r.mainVersion, groups[i].files + [r.info])]
    case None =>
      var res := groups + [Group(r.mainVersion, [r.info])];
      assert Mains(res)[|groups|] == r.mainVersion;
      res
  }

  /** `version_group` after the scanning loop: no more groups than records, and one at least when there is a record. */
  function GroupAll(rs: seq<Record>): (groups: seq<Group>)
    ensures |groups| <= |rs|
    ensures rs != [] ==> groups != []
  {
    if rs == [] then [] else AddRecord(GroupAll(rs[..|rs| - 1]), rs[|rs| - 1])
  }

  /** The records of main version `v`, in scan order: what the group of `v` should hold. */
  function FilesWithMain(rs: seq<Record>, v: string): (fs: seq<FileInfo>)
    ensures forall f :: f in fs ==> exists r :: r in rs && r.mainVersion == v && r.info == f
  {
    if rs == [] then []
    else
      var last := rs[|rs| - 1];
      FilesWithMain(rs[..|rs| - 1], v) + (if last.mainVersion == v then [last.info] else [])
  }

  // ---------------------------------------------------------------------
  // Ordering
  // ---------------------------------------------------------------------

  /** The loop that sorts each group's list in place by `version_cmp`, largest first. */
  function SortEachGroup(groups: seq<Group>): (r: seq<Group>)
    ensures |r| == |groups|
    ensures forall i :: 0 <= i < |r| ==>
      r[i].mainVersion == groups[i].mainVersion && |r[i].files| == |groups[i].files|
  {
    seq(|groups|, i requires 0 <= i < |groups| =>
      Group(groups[i].mainVersion, SortDescending(groups[i].files, FileKey)))
  }

  function GroupKey(g: Group): Key { MainKeyOf(g.mainVersion) }

  /** The rebuilt `version_group`: the groups ordered by `main_version_cmp`, largest first. */
  function OrderGroups(groups: seq<Group>): (r: seq<Group>)
    ensures |r| == |groups|
  {
    SortDescending(groups, GroupKey)
  }

  /** `version_group[v]` for a key that is present. */
  function Lookup(groups: seq<Group>, v: string): seq<FileInfo> {
    match FindGroup(groups, v)
    case Some(i) => groups[i].files
    case None => []
  }

  /** `{ver: version_group[ver] for ver in sorted(version_group.keys(), key=main_version_cmp, reverse=True)}`. */
  function Rebuild(groups: seq<Group>): (r: seq<Group>)
    ensures |r| == |groups|
  {
    var sorted := SortDescending(Mains(groups), MainKeyOf);
    seq(|sorted|, m requires 0 <= m < |sorted| => Group(sorted[m], Lookup(groups, sorted[m])))
  }

  /** The groups of one folder present on disk; a folder without regular files has none (`{}`, not null). */
  function FolderGroups(folder: string, entries: seq<Entry>): (groups: seq<Group>)
    ensures (forall e :: e in entries ==> !e.isFile) ==> groups == []
  {
    var files := Candidates(entries);
    var rs := ScanRecords(folder, files);
    assert (forall e :: e in entries ==> !e.isFile) ==> rs == [] by {
      if forall e :: e in entries ==> !e.isFile {
        ScanRecordsNoFiles(folder, files);
      }
    }
    OrderGroups(SortEachGroup(GroupAll(rs)))
  }

  /** One pass of the folder loop: null for a missing folder, its groups otherwise, under the folder's key. */
  function SectionFor(listing: Listing, f: Folder): (s: Section)
    ensures s.key == f.key
    ensures s.groups.None? <==> f.name !in listing
  {
    if f.name in listing then Section(f.key, Some(FolderGroups(f.name, listing[f.name])))
    else Section(f.key, None)
  }

  /** The manifest as a value: one section per target folder, in order, under that folder's key. */
  function Manifest(listing: Listing): (m: seq<Section>)
    ensures |m| == |TargetFolders|
    ensures forall i :: 0 <= i < |m| ==> m[i].key == TargetFolders[i].key
  {
    seq(|TargetFolders|, i requires 0 <= i < |TargetFolders| => SectionFor(listing, TargetFolders[i]))
  }

  // ---------------------------------------------------------------------
  // The script's loops
  // ---------------------------------------------------------------------

  /** `generate_json_manifest(root_dir)` before `json.dumps`: the manifest as a value. */
  method GenerateManifest(listing: Listing) returns (manifest: seq<Section>)
    ensures manifest == Manifest(listing)
  {
    manifest := [];
    for f := 0 to |TargetFolders|
      invariant manifest == Manifest(listing)[..f]
    {
      var section := BuildSection(listing, TargetFolders[f]);
      manifest := manifest + [section];
      assert Manifest(listing)[..f + 1] == Manifest(listing)[..f] + [SectionFor(listing, TargetFolders[f])];
    }
    assert Manifest(listing)[..|TargetFolders|] == Manifest(listing);
  }

  /** One turn of the loop over `target_folders`: null for a missing folder, else its groups sorted both ways. */
  method BuildSection(listing: Listing, folder: Folder) returns (section: Section)
    ensures section == SectionFor(listing, folder)
  {
    if folder.name !in listing {
      section := Section(folder.key, None);
    } else {
      var groups := ScanFolder(folder.name, Candidates(listing[folder.name]));
      groups := SortGroupFiles(groups);
      groups := SortGroupKeys(groups);
      section := Section(folder.key, Some(groups));
    }
  }

  /** The loop over `all_files`: parse each regular file and append it to its main version's group. */
  method ScanFolder(folder: string, allFiles: seq<Entry>) returns (groups: seq<Group>)
    ensures groups == GroupAll(ScanRecords(folder, allFiles))
    ensures DistinctMains(groups)
  {
    groups := [];
    for i := 0 to |allFiles|
      invariant groups == GroupAll(ScanRecords(folder, allFiles[..i]))
    {
      var file := allFiles[i];
      ScanStep(folder, allFiles, i);
      if file.isFile {
        var r := ParseFileInfo(file, folder);
        match FindGroup(groups, r.mainVersion) {
          case Some(g) =>
            groups := groups[g := Group(r.mainVersion, groups[g].files + [r.info])];
          case None =>
            groups := groups + [Group(r.mainVersion, [r.info])];
        }
      }
    }
    assert allFiles[..|allFiles|] == allFiles;
    GroupAllGrouped(ScanRecords(folder, allFiles));
  }

  /** The loop `for main_ver in version_group`: sort each group's list in place, largest sub-version first. */
  method SortGroupFiles(groups: seq<Group>) returns (sorted: seq<Group>)
    requires DistinctMains(groups)
    ensures sorted == SortEachGroup(groups)
    ensures DistinctMains(sorted)
  {
    sorted := groups;
    for g := 0 to |sorted|
      invariant |sorted| == |groups|
      invariant forall k :: 0 <= k < g ==> sorted[k] == SortEachGroup(groups)[k]
      invariant forall k :: g <= k < |sorted| ==> sorted[k] == groups[k]
    {
      sorted := sorted[g := Group(sorted[g].mainVersion, SortDescending(sorted[g].files, FileKey))];
    }
    SortEachGroupMains(groups);
  }

  /** Sort the keys by `main_version_cmp`, largest first, and rebuild the dictionary in that order. */
  method SortGroupKeys(groups: seq<Group>) returns (rebuilt: seq<Group>)
    requires DistinctMains(groups)
    ensures rebuilt == OrderGroups(groups)
  {
    var sortedMains := SortDescending(Mains(groups), MainKeyOf);
    rebuilt := [];
    for k := 0 to |sortedMains|
      invariant rebuilt == Rebuild(groups)[..k]
    {
      rebuilt := rebuilt + [Group(sortedMains[k], Lookup(groups, sortedMains[k]))];
    }
    RebuildOrders(groups);
  }

  // ---------------------------------------------------------------------
  // Grouping: every record in exactly one group
  // ---------------------------------------------------------------------

  lemma {:induction false} FilterAppend<T>(a: seq<T>, b: seq<T>, keep: T -> bool)
    ensures Filter(a + b, keep) == Filter(a, keep) + Filter(b, keep)
    decreases |b|
  {
    if b == [] {
      assert a + b == a;
    } else {
      var init, last := b[..|b| - 1], b[|b| - 1];
      var ab := a + b;
      assert ab[..|ab| - 1] == a + init && ab[|ab| - 1] == last;
      FilterAppend(a, init, keep);
    }
  }

  /** The entries a glob keeps from two stretches of a listing come in the listing's order. */
  lemma GlobFilterAppend(a: seq<Entry>, b: seq<Entry>, g: Glob)
    ensures GlobFilter(a + b, g) == GlobFilter(a, g) + GlobFilter(b, g)
  {
    FilterAppend(a, b, Matches(g));
  }

  /** The records of two stretches of files come in the files' order. */
  lemma ScanRecordsAppend(folder: string, a: seq<Entry>, b: seq<Entry>)
    ensures ScanRecords(folder, a + b) == ScanRecords(folder, a) + ScanRecords(folder, b)
  {
    FilterAppend(a, b, IsRegular);
    ApplyAppend(Parser(folder), Filter(a, IsRegular), Filter(b, IsRegular));
  }

  /** `groups` is `version_group` for the records `rs`. */
  ghost predicate GroupedBy(groups: seq<Group>, rs: seq<Record>) {
    DistinctMains(groups) &&
    (forall i :: 0 <= i < |groups| ==>
      groups[i].files == FilesWithMain(rs, groups[i].mainVersion) && groups[i].files != []) &&
    (forall r :: r in rs ==> r.mainVersion in Mains(groups))
  }

  /** One more entry scanned: a regular file adds its record to the groups, anything else changes nothing. */
  lemma ScanStep(folder: string, files: seq<Entry>, i: nat)
    requires i < |files|
    ensures GroupAll(ScanRecords(folder, files[..i + 1])) ==
      if files[i].isFile then AddRecord(GroupAll(ScanRecords(folder, files[..i])), ParseFileInfo(files[i], folder))
      else GroupAll(ScanRecords(folder, files[..i]))
  {
    var x := files[i];
    assert files[..i + 1] == files[..i] + [x];
    ScanRecordsAppend(folder, files[..i], [x]);
    ScanRecordsSingle(folder, x);
    var rs := ScanRecords(folder, files[..i]);
    if x.isFile {
      var r := ParseFileInfo(x, folder);
      assert (rs + [r])[..|rs|] == rs;
    } else {
      assert rs + [] == rs;
    }
  }

  lemma ScanRecordsSingle(folder: string, x: Entry)
    ensures ScanRecords(folder, [x]) == if x.isFile then [ParseFileInfo(x, folder)] else []
  {
    assert [x][..0] == [];
    assert Filter([x][..0], IsRegular) == [];
    assert IsRegular(x) == x.isFile;
    var kept := Filter([x], IsRegular);
    assert kept == if x.isFile then [x] else [];
    assert Apply(Parser(folder), kept) == if x.isFile then [Parser(folder)(x)] else [];
  }

  lemma FilesWithMainSnoc(rs: seq<Record>, r: Record, v: string)
    ensures FilesWithMain(rs + [r], v) == FilesWithMain(rs, v) + (if r.mainVersion == v then [r.info] else [])
  {
    assert (rs + [r])[..|rs|] == rs;
  }

  lemma {:induction false} FilesWithMainNone(rs: seq<Record>, v: string)
    requires forall r :: r in rs ==> r.mainVersion != v
    ensures FilesWithMain(rs, v) == []
  {
    if rs != [] {
      FilesWithMainNone(rs[..|rs| - 1], v);
    }
  }

  /** A record whose main version already has a group is appended to that group's list. */
  lemma AddToGroup(groups: seq<Group>, rs: seq<Record>, r: Record, i: nat)
    requires GroupedBy(groups, rs)
    requires i < |groups| && groups[i].mainVersion == r.mainVersion
    ensures GroupedBy(groups[i := Group(r.mainVersion, groups[i].files + [r.info])], rs + [r])
  {
    var v := r.mainVersion;
    var next := groups[i := Group(v, groups[i].files + [r.info])];
    assert Mains(next) == Mains(groups);
    forall k | 0 <= k < |next|
      ensures next[k].files == FilesWithMain(rs + [r], next[k].mainVersion) && next[k].files != []
    {
      FilesWithMainSnoc(rs, r, next[k].mainVersion);
      if k != i {
        assert Mains(groups)[k] != Mains(groups)[i];
      }
    }
    forall x | x in rs + [r] ensures x.mainVersion in Mains(next) {
      if x != r {
        assert x in rs;
      } else {
        assert Mains(next)[i] == v;
      }
    }
  }

  /** A record whose main version has no group opens a new group at the end. */
  lemma AddNewGroup(groups: seq<Group>, rs: seq<Record>, r: Record)
    requires GroupedBy(groups, rs)
    requires forall k :: 0 <= k < |groups| ==> groups[k].mainVersion != r.mainVersion
    ensures GroupedBy(groups + [Group(r.mainVersion, [r.info])], rs + [r])
  {
    var v := r.mainVersion;
    var next := groups + [Group(v, [r.info])];
    assert Mains(next) == Mains(groups) + [v];
    assert v !in Mains(groups);
    forall x | x in rs ensures x.mainVersion != v {
      assert x.mainVersion in Mains(groups);
    }
    FilesWithMainNone(rs, v);
    forall k | 0 <= k < |next|
      ensures next[k].files == FilesWithMain(rs + [r], next[k].mainVersion) && next[k].files != []
    {
      FilesWithMainSnoc(rs, r, next[k].mainVersion);
    }
    forall x | x in rs + [r] ensures x.mainVersion in Mains(next) {
      if x != r {
        assert x in rs;
      } else {
        assert Mains(next)[|groups|] == v;
      }
    }
  }

  /** Adding one record keeps `version_group` a grouping of the records seen so far. */
  lemma AddRecordGrouped(groups: seq<Group>, rs: seq<Record>, r: Record)
    requires GroupedBy(groups, rs)
    ensures GroupedBy(AddRecord(groups, r), rs + [r])
  {
    match FindGroup(groups, r.mainVersion)
    case Some(i) =>
      AddToGroup(groups, rs, r, i);
    case None =>
      AddNewGroup(groups, rs, r);
  }

  /** After the scanning loop each main version has one group, holding exactly its records in scan order. */
  lemma {:induction false} GroupAllGrouped(rs: seq<Record>)
    ensures GroupedBy(GroupAll(rs), rs)
  {
    if rs != [] {
      var init := rs[..|rs| - 1];
      GroupAllGrouped(init);
      assert init + [rs[|rs| - 1]] == rs;
      AddRecordGrouped(GroupAll(init), init, rs[|rs| - 1]);
    }
  }

  function RecordMain(r: Record): string { r.mainVersion }

  /** The distinct items of `vs`, each at the place it first occurs: `list(dict.fromkeys(vs))`. */
  function FirstSeen(vs: seq<string>): (r: seq<string>)
    ensures NoDuplicates(r)
    ensures forall v :: v in r <==> v in vs
  {
    if vs == [] then []
    else
      var init, last := FirstSeen(vs[..|vs| - 1]), vs[|vs| - 1];
      assert vs == vs[..|vs| - 1] + [last];
      if last in init then init else init + [last]
  }

  /** Of two items of `FirstSeen(vs)`, the earlier one occurs in `vs` before the later one first does. */
  lemma {:induction false} FirstSeenOrder(vs: seq<string>, i: nat, j: nat)
    requires i < j < |FirstSeen(vs)|
    ensures exists a :: 0 <= a < |vs| && vs[a] == FirstSeen(vs)[i] && FirstSeen(vs)[j] !in vs[..a]
    decreases |vs|
  {
    var init, last := vs[..|vs| - 1], vs[|vs| - 1];
    var seen := FirstSeen(init);
    if j < |seen| {
      FirstSeenOrder(init, i, j);
      var a :| 0 <= a < |init| && init[a] == seen[i] && seen[j] !in init[..a];
      assert vs[..a] == init[..a] && vs[a] == init[a];
    } else {
      assert seen[i] in init;
      var a :| 0 <= a < |init| && init[a] == seen[i];
      assert vs[..a] == init[..a] && vs[a] == init[a];
      assert forall x :: x in init[..a] ==> x in init;
    }
  }

  /** Opening a group appends its main version to the keys; adding to one leaves the keys alone. */
  lemma MainsAddRecord(groups: seq<Group>, r: Record)
    ensures Mains(AddRecord(groups, r)) ==
      if r.mainVersion in Mains(groups) then Mains(groups) else Mains(groups) + [r.mainVersion]
  {
    match FindGroup(groups, r.mainVersion)
    case Some(i) =>
      assert Mains(groups)[i] == r.mainVersion;
    case None =>
      assert r.mainVersion !in Mains(groups);
  }

  /**
    * The keys of `version_group` are the main versions of the records, each
    * where it is first seen; with `FirstSeenOrder`, a main version seen
    * earlier gets its group earlier.
    */
  lemma {:induction false} GroupAllOrder(rs: seq<Record>)
    ensures Mains(GroupAll(rs)) == FirstSeen(Apply(RecordMain, rs))
  {
    if rs != [] {
      var init := rs[..|rs| - 1];
      var vs := Apply(RecordMain, rs);
      GroupAllOrder(init);
      assert vs[..|vs| - 1] == Apply(RecordMain, init);
      MainsAddRecord(GroupAll(init), rs[|rs| - 1]);
    }
  }

  // ---------------------------------------------------------------------
  // Ordering: records within a group, groups within a folder
  // ---------------------------------------------------------------------

  lemma SortEachGroupMains(groups: seq<Group>)
    ensures Mains(SortEachGroup(groups)) == Mains(groups)
    ensures DistinctMains(groups) ==> DistinctMains(SortEachGroup(groups))
  {
  }

  /** Each group's list ends up largest sub-version first, a stable rearrangement of what it held. */
  lemma SortEachGroupSorted(groups: seq<Group>, i: nat)
    requires i < |groups|
    ensures Descending(SortEachGroup(groups)[i].files, FileKey)
    ensures multiset(SortEachGroup(groups)[i].files) == multiset(groups[i].files)
    ensures forall k :: WithKey(SortEachGroup(groups)[i].files, FileKey, k) == WithKey(groups[i].files, FileKey, k)
  {
    var fs := groups[i].files;
    SortDescendingSorted(fs, FileKey);
    SortDescendingPermutation(fs, FileKey);
    forall k ensures WithKey(SortDescending(fs, FileKey), FileKey, k) == WithKey(fs, FileKey, k) {
      SortDescendingStable(fs, FileKey, k);
    }
  }

  /** Ordering the groups is a rearrangement that puts larger main versions first and keeps keys unique. */
  lemma OrderGroupsSpec(groups: seq<Group>)
    ensures Descending(OrderGroups(groups), GroupKey)
    ensures multiset(OrderGroups(groups)) == multiset(groups)
    ensures Mains(OrderGroups(groups)) == SortDescending(Mains(groups), MainKeyOf)
    ensures DistinctMains(groups) ==> DistinctMains(OrderGroups(groups))
  {
    SortDescendingSorted(groups, GroupKey);
    SortDescendingPermutation(groups, GroupKey);
    SortApply(groups, MainOf, GroupKey, MainKeyOf);
    if DistinctMains(groups) {
      SortNoDuplicates(Mains(groups), MainKeyOf);
    }
  }

  /** Looking a group's key up finds that group's list. */
  lemma LookupMember(groups: seq<Group>, i: nat)
    requires DistinctMains(groups) && i < |groups|
    ensures Lookup(groups, groups[i].mainVersion) == groups[i].files
  {
    var j := FindGroup(groups, groups[i].mainVersion).value;
    assert Mains(groups)[i] == Mains(groups)[j];
  }

  /** Sorting the keys and looking each one up orders the groups as sorting the groups by key would. */
  lemma RebuildOrders(groups: seq<Group>)
    requires DistinctMains(groups)
    ensures Rebuild(groups) == OrderGroups(groups)
  {
    var ordered := OrderGroups(groups);
    OrderGroupsSpec(groups);
    var sorted := SortDescending(Mains(groups), MainKeyOf);
    forall m | 0 <= m < |ordered| ensures Rebuild(groups)[m] == ordered[m] {
      assert ordered[m] in multiset(groups);
      var i :| 0 <= i < |groups| && groups[i] == ordered[m];
      LookupMember(groups, i);
      assert sorted[m] == ordered[m].mainVersion;
    }
  }

  // ---------------------------------------------------------------------
  // What one folder's groups look like
  // ---------------------------------------------------------------------

  /** Every main version of a group is "unknown" or a dotted list of digit runs. */
  ghost predicate ValidMains(groups: seq<Group>) {
    forall i :: 0 <= i < |groups| ==> groups[i].mainVersion == Unknown || ValidVersion(groups[i].mainVersion)
  }

  /** The records scanned from a folder. */
  function FolderRecords(folder: string, entries: seq<Entry>): seq<Record> {
    ScanRecords(folder, Candidates(entries))
  }

  lemma ScanRecordsValid(folder: string, files: seq<Entry>)
    ensures forall r :: r in ScanRecords(folder, files) ==> r.mainVersion == Unknown || ValidVersion(r.mainVersion)
  {
    forall r | r in ScanRecords(folder, files) ensures r.mainVersion == Unknown || ValidVersion(r.mainVersion) {
      var e :| e in files && e.isFile && r == ParseFileInfo(e, folder);
      MainVersionValid(e.name);
    }
  }

  /** A group of the final manifest is a group of `version_group` with its list sorted. */
  lemma FolderGroupOrigin(folder: string, entries: seq<Entry>, g: Group) returns (i: nat)
    requires g in FolderGroups(folder, entries)
    ensures var grouped := GroupAll(FolderRecords(folder, entries));
      i < |grouped| && g == SortEachGroup(grouped)[i] &&
      grouped[i].files == FilesWithMain(FolderRecords(folder, entries), g.mainVersion) && grouped[i].files != []
  {
    var rs := FolderRecords(folder, entries);
    var grouped := GroupAll(rs);
    GroupAllGrouped(rs);
    OrderGroupsSpec(SortEachGroup(grouped));
    assert g in multiset(SortEachGroup(grouped));
    i :| 0 <= i < |grouped| && SortEachGroup(grouped)[i] == g;
  }

  /**
    * Every scanned file lands in exactly one group: the main versions are
    * unique, each record's main version has a group, and each group holds
    * exactly the records of its main version, none missing and none added.
    */
  lemma FolderGroupsPartition(folder: string, entries: seq<Entry>)
    ensures DistinctMains(FolderGroups(folder, entries))
    ensures forall r :: r in FolderRecords(folder, entries) ==> r.mainVersion in Mains(FolderGroups(folder, entries))
    ensures forall g :: g in FolderGroups(folder, entries) ==>
      g.files != [] && multiset(g.files) == multiset(FilesWithMain(FolderRecords(folder, entries), g.mainVersion))
  {
    var rs := FolderRecords(folder, entries);
    var grouped := GroupAll(rs);
    var each := SortEachGroup(grouped);
    GroupAllGrouped(rs);
    SortEachGroupMains(grouped);
    OrderGroupsSpec(each);
    SortDescendingPermutation(Mains(each), MainKeyOf);
    forall r | r in rs ensures r.mainVersion in Mains(FolderGroups(folder, entries)) {
      assert r.mainVersion in multiset(Mains(each));
    }
    forall g | g in FolderGroups(folder, entries)
      ensures g.files != [] && multiset(g.files) == multiset(FilesWithMain(rs, g.mainVersion))
    {
      var i := FolderGroupOrigin(folder, entries, g);
      SortDescendingPermutation(grouped[i].files, FileKey);
      assert grouped[i].files[0] in multiset(g.files);
    }
  }

  /**
    * Within each group the records are ordered largest sub-version first, and
    * records with equal keys (API1.2 and API1.2NotOpenGLES, say) keep their
    * scan order: by `SortDescendingCharacterized`, this is Python's stable sort.
    */
  lemma FolderGroupsFilesOrder(folder: string, entries: seq<Entry>)
    ensures forall g :: g in FolderGroups(folder, entries) ==> Descending(g.files, FileKey)
    ensures forall g, k :: g in FolderGroups(folder, entries) ==>
      WithKey(g.files, FileKey, k) == WithKey(FilesWithMain(FolderRecords(folder, entries), g.mainVersion), FileKey, k)
  {
    var rs := FolderRecords(folder, entries);
    forall g | g in FolderGroups(folder, entries)
      ensures Descending(g.files, FileKey)
      ensures forall k :: WithKey(g.files, FileKey, k) == WithKey(FilesWithMain(rs, g.mainVersion), FileKey, k)
    {
      var i := FolderGroupOrigin(folder, entries, g);
      SortEachGroupSorted(GroupAll(rs), i);
    }
  }

  /** In a descending order of valid groups, only "unknown" may follow "unknown". */
  lemma UnknownAtEnd(groups: seq<Group>)
    requires Descending(groups, GroupKey) && ValidMains(groups)
    ensures forall i, j :: 0 <= i < j < |groups| && groups[i].mainVersion == Unknown ==> groups[j].mainVersion == Unknown
  {
    forall i, j | 0 <= i < j < |groups| && groups[i].mainVersion == Unknown
      ensures groups[j].mainVersion == Unknown
    {
      if groups[j].mainVersion != Unknown {
        UnknownLast(groups[j].mainVersion);
      }
    }
  }

  /** Every group's main version is "unknown" or a dotted run of integers. */
  lemma FolderGroupsValid(folder: string, entries: seq<Entry>)
    ensures ValidMains(FolderGroups(folder, entries))
  {
    var rs := FolderRecords(folder, entries);
    var groups := FolderGroups(folder, entries);
    ScanRecordsValid(folder, Candidates(entries));
    forall i | 0 <= i < |groups| ensures groups[i].mainVersion == Unknown || ValidVersion(groups[i].mainVersion) {
      var k := FolderGroupOrigin(folder, entries, groups[i]);
      var f := GroupAll(rs)[k].files[0];
      assert f in FilesWithMain(rs, groups[i].mainVersion);
    }
  }

  /**
    * The groups are ordered largest main version first, each main version
    * compared as the list of its integers, and "unknown", if present, is last.
    */
  lemma FolderGroupsOrder(folder: string, entries: seq<Entry>)
    ensures ValidMains(FolderGroups(folder, entries))
    ensures Descending(FolderGroups(folder, entries), GroupKey)
    ensures forall i :: 0 <= i < |FolderGroups(folder, entries)| - 1 ==> FolderGroups(folder, entries)[i].mainVersion != Unknown
  {
    var rs := FolderRecords(folder, entries);
    var groups := FolderGroups(folder, entries);
    FolderGroupsValid(folder, entries);
    OrderGroupsSpec(SortEachGroup(GroupAll(rs)));
    UnknownAtEnd(groups);
    FolderGroupsPartition(folder, entries);
    forall i | 0 <= i < |groups| - 1 ensures groups[i].mainVersion != Unknown {
      assert Mains(groups)[i] != Mains(groups)[|groups| - 1];
    }
  }

  // ---------------------------------------------------------------------
  // The manifest
  // ---------------------------------------------------------------------

  /**
    * The manifest has the keys "api", "net" and "original" in that order; a
    * folder missing from the root (or not a directory) gives null, never an
    * empty group list.
    */
  lemma ManifestShape(listing: Listing)
    ensures |Manifest(listing)| == 3
    ensures Manifest(listing)[0].key == "api" && Manifest(listing)[1].key == "net" && Manifest(listing)[2].key == "original"
    ensures forall i :: 0 <= i < 3 ==>
      (Manifest(listing)[i].groups.None? <==> TargetFolders[i].name !in listing)
    ensures forall i :: 0 <= i < 3 && TargetFolders[i].name in listing ==>
      Manifest(listing)[i].groups == Some(FolderGroups(TargetFolders[i].name, listing[TargetFolders[i].name]))
  {
  }
}
