/**
 Rebuilding an archive from another one and a diff (`create` of src/zimpatch.cpp), and when that undoes zimdiff.
 */
module ZimPatches {
  import opened LineLists
  import opened Options
  import opened Sequences
  import opened ZimArchives
  import opened ZimDiffs

  // ---------- What the patched archive holds ----------

  /** `isAdditionalMetadata`. */
  predicate IsAdditionalMetadata(url: string) {
    url in {"M/dlist", "M/startfileuid", "M/endfileuid", "M/mainaurl", "M/layoutaurl", "M/redirectlist"}
  }

  /** Every second line by the line before it; the last pair for a path wins. */
  function RedirectMap(lines: seq<string>): map<string, string>
    requires |lines| % 2 == 0
  {
    if lines == [] then map[]
    else RedirectMap(lines[..|lines| - 2])[lines[|lines| - 2] := lines[|lines| - 1]]
  }

  predicate HasMetadata(diff: Archive) {
    {"endfileuid", "mainaurl", "redirectlist", "dlist"} <= diff.metadata.Keys
  }

  function DeletedPaths(diff: Archive): seq<string>
    requires HasMetadata(diff)
  {
    ReadLines("", diff.metadata["dlist"])
  }

  function RedirectLines(diff: Archive): seq<string>
    requires HasMetadata(diff)
  {
    ReadLines("", diff.metadata["redirectlist"])
  }

  /** Enough numbers to fill the array of 16 bytes and not more, and no path without its target. */
  ghost predicate WellFormed(diff: Archive) {
    HasMetadata(diff) ==>
      && |ReadLines("", diff.metadata["endfileuid"])| == 16
      && |RedirectLines(diff)| % 2 == 0
  }

  /** The deleted paths are looked up in the start archive. */
  ghost predicate DeletesKnown(start: Archive, diff: Archive)
    requires HasMetadata(diff)
  {
    forall k :: 0 <= k < |DeletedPaths(diff)| ==> DeletedPaths(diff)[k] in start.entries
  }

  /** The paths of the start archive that stay, and those that the diff adds. */
  ghost function Kept(start: Archive, diff: Archive): set<string>
    requires HasMetadata(diff)
  {
    set p | p in start.entries && p !in DeletedPaths(diff)
  }

  ghost function Added(start: Archive, diff: Archive): set<string> {
    set p | p in diff.entries && p !in start.entries && !IsAdditionalMetadata(p)
  }

  /** The entry of a path: the redirect of the diff's list, else the diff's entry, else the start archive's. */
  function Chosen(start: Archive, diff: Archive, redirectList: map<string, string>, p: string): Entry
    requires p in start.entries || p in diff.entries
  {
    if p in redirectList then Redirect(redirectList[p])
    else if p in diff.entries then diff.entries[p]
    else start.entries[p]
  }

  ghost function Patched(start: Archive, diff: Archive): map<string, Entry>
    requires HasMetadata(diff) && WellFormed(diff)
  {
    map p | p in Kept(start, diff) + Added(start, diff) :: Chosen(start, diff, RedirectMap(RedirectLines(diff)), p)
  }

  ghost function PatchedUuid(diff: Archive): seq<int>
    requires HasMetadata(diff)
  {
    Bytes(ReadLines("", diff.metadata["endfileuid"]))
  }

  function Bytes(lines: seq<string>): (bytes: seq<int>)
    ensures |bytes| == |lines|
  {
    if lines == [] then [] else Bytes(lines[..|lines| - 1]) + [ToChar(Atoi(lines[|lines| - 1]))]
  }

  ghost function PatchedMain(start: Archive, diff: Archive): Option<string>
    requires HasMetadata(diff)
  {
    var mainPath := diff.metadata["mainaurl"];
    if mainPath in diff.entries || mainPath in start.entries then Some(mainPath) else None
  }

  lemma {:induction false} BytesAre(lines: seq<string>, k: nat)
    requires k < |lines|
    ensures Bytes(lines)[k] == ToChar(Atoi(lines[k]))
  {
    if k < |lines| - 1 {
      BytesAre(lines[..|lines| - 1], k);
    }
    hide Atoi, ToChar;
  }

  /** The pair that counts for a path is its last one. */
  lemma {:induction false} RedirectMapMeans(lines: seq<string>, p: string)
    requires |lines| % 2 == 0
    ensures p in RedirectMap(lines) <==> exists k :: 0 <= k < |lines| / 2 && lines[2 * k] == p
    ensures forall k :: 0 <= k < |lines| / 2 && lines[2 * k] == p
                        && (forall j :: k < j < |lines| / 2 ==> lines[2 * j] != p) ==>
              p in RedirectMap(lines) && RedirectMap(lines)[p] == lines[2 * k + 1]
  {
    if lines != [] {
      var init := lines[..|lines| - 2];
      RedirectMapMeans(init, p);
      assert forall k :: 0 <= k < |init| / 2 ==> init[2 * k] == lines[2 * k] && init[2 * k + 1] == lines[2 * k + 1];
      assert |init| / 2 == |lines| / 2 - 1 && lines[2 * (|lines| / 2 - 1)] == lines[|lines| - 2];
    }
  }

  /** What the patched archive holds for any two archives: the entries that stay and those that are added, each the
      redirect of the list, or else the diff's, or else the old one. */
  lemma PatchedInFields(start: Archive, diff: Archive, p: string)
    requires HasMetadata(diff) && WellFormed(diff)
    ensures var deleted := ReadLines("", diff.metadata["dlist"]);
            var redirectList := RedirectMap(ReadLines("", diff.metadata["redirectlist"]));
            && (p in Patched(start, diff) <==>
                  || (p in start.entries && p !in deleted)
                  || (p in diff.entries && p !in start.entries
                      && p !in {"M/dlist", "M/startfileuid", "M/endfileuid", "M/mainaurl", "M/layoutaurl",
                                "M/redirectlist"}))
            && (p in Patched(start, diff) ==>
                  Patched(start, diff)[p] == if p in redirectList then Redirect(redirectList[p])
                                             else if p in diff.entries then diff.entries[p] else start.entries[p])
  {
    hide ReadLines, RedirectMap;
  }

  // ---------- The program ----------

  lemma BytesStep(lines: seq<string>, line: string)
    ensures Bytes(lines + [line]) == Bytes(lines) + [ToChar(Atoi(line))]
  {
    assert (lines + [line])[..|lines|] == lines;
  }

  method DecodeUuid(id: string) returns (bytes: seq<int>)
    requires |ReadLines("", id)| == 16
    ensures bytes == Bytes(ReadLines("", id))
  {
    var tempArray := new int[16](_ => 0);
    var temp, k := "", 0;
    ghost var lines: seq<string> := [];
    ghost var all := ReadLines("", id);
    assert id[0..] == id && lines + all == all;
    assert tempArray[..0] == Bytes(lines);
    NothingRead("");
    hide *;
    for i := 0 to |id|
      invariant all == lines + ReadLines(temp, id[i..])
      invariant k == |lines| <= 16 && tempArray[..k] == Bytes(lines)
    {
      ReadLinesStep(temp, id, i);
      if id[i] == '\n' {
        assert all == lines + [temp] + ReadLines("", id[i + 1..]);
        BytesStep(lines, temp);
        assert |lines + [temp]| <= 16;
        tempArray[k] := ToChar(Atoi(temp));
        assert tempArray[..k + 1] == tempArray[..k] + [tempArray[k]];
        lines := lines + [temp];
        temp := "";
        k := k + 1;
      } else {
        temp := temp + [id[i]];
      }
    }
    NothingRead(temp);
    assert id[|id|..] == "" && all == lines;
    bytes := tempArray[..];
    assert tempArray[..16] == tempArray[..];
  }

  lemma RedirectMapStep(lines: seq<string>, i: nat)
    requires i % 2 == 0 && i + 2 <= |lines|
    ensures RedirectMap(lines[..i + 2]) == RedirectMap(lines[..i])[lines[i] := lines[i + 1]]
  {
    assert lines[..i + 2][..i] == lines[..i];
  }

  method DecodeRedirects(text: string) returns (redirectList: map<string, string>)
    requires |ReadLines("", text)| % 2 == 0
    ensures redirectList == RedirectMap(ReadLines("", text))
  {
    hide ReadLines;
    var rdlist := SplitLines(text);
    redirectList := map[];
    var i := 0;
    while i < |rdlist|
      invariant i <= |rdlist| && i % 2 == 0 && redirectList == RedirectMap(rdlist[..i])
    {
      RedirectMapStep(rdlist, i);
      redirectList := redirectList[rdlist[i] := rdlist[i + 1]];
      i := i + 2;
    }
    assert rdlist[..i] == rdlist;
  }

  /** Marks the indices of the deleted paths, in an array big enough for both archives. */
  method MarkDeleted(start: Archive, diff: Archive, deleteList: seq<string>) returns (ok: bool, dlist: array<int>)
    requires Valid(start) && Valid(diff)
    ensures fresh(dlist) && dlist.Length >= |start.paths|
    ensures ok <==> forall k :: 0 <= k < |deleteList| ==> deleteList[k] in start.entries
    ensures ok ==> forall i :: 0 <= i < |start.paths| ==> (dlist[i] == 1 <==> start.paths[i] in deleteList)
  {
    dlist := new int[|start.paths| + |diff.paths|](_ => 0);
    for i := 0 to |deleteList|
      invariant forall k :: 0 <= k < i ==> deleteList[k] in start.entries
      invariant forall j :: 0 <= j < |start.paths| ==>
                  (dlist[j] == 1 <==> exists k :: 0 <= k < i && deleteList[k] == start.paths[j])
    {
      if deleteList[i] !in start.entries {
        return false, dlist;
      }
      var index := IndexOf(start.paths, deleteList[i]);
      dlist[index] := 1;
      forall j | 0 <= j < |start.paths|
        ensures dlist[j] == 1 <==> exists k :: 0 <= k < i + 1 && deleteList[k] == start.paths[j]
      {
        if j == index {
          assert deleteList[i] == start.paths[j];
        } else if dlist[j] != 1 {
          assert start.paths[j] != start.paths[index];
        }
      }
    }
    return true, dlist;
  }

  lemma FilterAll(told: seq<string>, paths: seq<string>, keep: set<string>)
    ensures told + Filter(paths[..0], keep) == told
    ensures Filter(paths[..|paths|], keep) == Filter(paths, keep)
  {
    assert paths[..|paths|] == paths;
  }

  /** At a path of the start archive: it is not told yet, and is kept unless marked. */
  lemma KeptStep(start: Archive, diff: Archive, i: nat)
    requires Valid(start) && HasMetadata(diff) && i < |start.paths|
    ensures var p := start.paths[i];
            && p in start.entries && p !in Filter(start.paths[..i], Kept(start, diff))
            && Filter(start.paths[..i + 1], Kept(start, diff))
               == if p in DeletedPaths(diff) then Filter(start.paths[..i], Kept(start, diff))
                  else Filter(start.paths[..i], Kept(start, diff)) + [p]
  {
    hide ReadLines;
    FilterStep(start.paths, Kept(start, diff), i);
    InFilter(start.paths[..i], Kept(start, diff), start.paths[i]);
    hide Filter;
  }

  /** Adds the entries of the start archive that stay. */
  method AddKept(zimCreator: Creator, start: Archive, diff: Archive, redirectList: map<string, string>,
                 dlist: array<int>)
    requires Valid(start) && Valid(diff) && HasMetadata(diff) && zimCreator.Valid() && zimCreator.paths == []
    requires dlist.Length >= |start.paths|
    requires forall i :: 0 <= i < |start.paths| ==> (dlist[i] == 1 <==> start.paths[i] in DeletedPaths(diff))
    modifies zimCreator`paths, zimCreator`entries
    ensures zimCreator.Valid() && zimCreator.paths == Filter(start.paths, Kept(start, diff))
    ensures AllChosen(start, diff, redirectList, zimCreator.entries)
  {
    hide *;
    ghost var kept := Kept(start, diff);
    ghost var deleted := DeletedPaths(diff);
    FilterAll([], start.paths, kept);
    zimCreator.NothingTold();
    NoneChosen(start, diff, redirectList);
    for index := 0 to |start.paths|
      invariant zimCreator.Valid() && zimCreator.paths == Filter(start.paths[..index], kept)
      invariant AllChosen(start, diff, redirectList, zimCreator.entries)
    {
      KeptStep(start, diff, index);
      if dlist[index] == 1 {
        continue;
      }
      var path := start.paths[index];
      ChosenAdded(start, diff, redirectList, zimCreator.entries, path);
      var entry := start.entries[path];
      if path in diff.entries {
        entry := diff.entries[path];
      }
      if path in redirectList {
        zimCreator.Add(path, Redirect(redirectList[path]));
        continue;
      }
      if entry.Redirect? {
        zimCreator.Add(path, Redirect(entry.target));
      } else {
        zimCreator.Add(path, Item(entry.data));
      }
    }
  }

  ghost predicate AllChosen(start: Archive, diff: Archive, redirectList: map<string, string>,
                            entries: map<string, Entry>) {
    forall p :: p in entries ==>
      (p in start.entries || p in diff.entries) && entries[p] == Chosen(start, diff, redirectList, p)
  }

  lemma NoneChosen(start: Archive, diff: Archive, redirectList: map<string, string>)
    ensures AllChosen(start, diff, redirectList, map[])
  {
  }

  lemma ChosenAdded(start: Archive, diff: Archive, redirectList: map<string, string>, entries: map<string, Entry>,
                    p: string)
    requires AllChosen(start, diff, redirectList, entries) && (p in start.entries || p in diff.entries)
    ensures AllChosen(start, diff, redirectList,
                      entries[p := if p in redirectList then Redirect(redirectList[p])
                                   else if p in diff.entries then diff.entries[p] else start.entries[p]])
  {
  }

  lemma AddedStep(start: Archive, diff: Archive, i: nat)
    requires Valid(start) && Valid(diff) && HasMetadata(diff) && i < |diff.paths|
    ensures var p, told := diff.paths[i], Filter(start.paths, Kept(start, diff));
            && p in diff.entries
            && (p !in start.entries ==> p !in told + Filter(diff.paths[..i], Added(start, diff)))
            && told + Filter(diff.paths[..i + 1], Added(start, diff))
               == if p in start.entries || IsAdditionalMetadata(p)
                  then told + Filter(diff.paths[..i], Added(start, diff))
                  else told + Filter(diff.paths[..i], Added(start, diff)) + [p]
  {
    var p := diff.paths[i];
    assert p in Added(start, diff) <==> p in diff.entries && p !in start.entries && !IsAdditionalMetadata(p);
    assert p in Kept(start, diff) ==> p in start.entries;
    hide ReadLines, IsAdditionalMetadata, Added, Kept, Filter;
    FilterStep(diff.paths, Added(start, diff), i);
    InFilter(diff.paths[..i], Added(start, diff), p);
    InFilter(start.paths, Kept(start, diff), p);
  }

  /** Adds the entries that only the diff has. */
  method AddNew(zimCreator: Creator, start: Archive, diff: Archive, redirectList: map<string, string>)
    requires Valid(start) && Valid(diff) && HasMetadata(diff) && zimCreator.Valid()
    requires zimCreator.paths == Filter(start.paths, Kept(start, diff))
    requires AllChosen(start, diff, redirectList, zimCreator.entries)
    modifies zimCreator`paths, zimCreator`entries
    ensures zimCreator.Valid() && AllChosen(start, diff, redirectList, zimCreator.entries)
    ensures zimCreator.paths == Filter(start.paths, Kept(start, diff)) + Filter(diff.paths, Added(start, diff))
  {
    ghost var added := Added(start, diff);
    ghost var told := zimCreator.paths;
    hide *;
    FilterAll(told, diff.paths, added);
    for index := 0 to |diff.paths|
      invariant zimCreator.Valid() && zimCreator.paths == told + Filter(diff.paths[..index], added)
      invariant AllChosen(start, diff, redirectList, zimCreator.entries)
    {
      AddedStep(start, diff, index);
      var path := diff.paths[index];
      var entry := diff.entries[path];
      if path in start.entries || IsAdditionalMetadata(path) {
        continue;
      }
      ChosenAdded(start, diff, redirectList, zimCreator.entries, path);
      if path in redirectList {
        zimCreator.Add(path, Redirect(redirectList[path]));
        continue;
      }
      if entry.Redirect? {
        zimCreator.Add(path, Redirect(entry.target));
      } else {
        zimCreator.Add(path, Item(entry.data));
      }
    }
  }

  lemma IsPatched(start: Archive, diff: Archive, zimCreator: Creator)
    requires Valid(start) && Valid(diff) && HasMetadata(diff) && WellFormed(diff) && zimCreator.Valid()
    requires zimCreator.paths == Filter(start.paths, Kept(start, diff)) + Filter(diff.paths, Added(start, diff))
    requires AllChosen(start, diff, RedirectMap(RedirectLines(diff)), zimCreator.entries)
    ensures zimCreator.entries == Patched(start, diff)
  {
    hide ReadLines, RedirectMap, Filter, IsAdditionalMetadata, Chosen;
    forall p ensures p in zimCreator.entries <==> p in Kept(start, diff) + Added(start, diff) {
      InFilter(start.paths, Kept(start, diff), p);
      InFilter(diff.paths, Added(start, diff), p);
      assert p in zimCreator.entries <==> p in zimCreator.paths by {
        if p in zimCreator.paths {
          var i :| 0 <= i < |zimCreator.paths| && zimCreator.paths[i] == p;
        }
      }
    }
  }

  /** Fails without a result when the diff lacks metadata or deletes a path that the start archive does not have. */
  method Create(start: Archive, diff: Archive) returns (ok: bool, zimCreator: Creator)
    requires Valid(start) && Valid(diff) && WellFormed(diff)
    ensures fresh(zimCreator) && zimCreator.Valid()
    ensures ok <==> HasMetadata(diff) && DeletesKnown(start, diff)
    ensures ok ==> zimCreator.entries == Patched(start, diff)
    ensures ok ==> zimCreator.mainPath == PatchedMain(start, diff) && zimCreator.uuid == Some(PatchedUuid(diff))
  {
    zimCreator := new Creator();
    if !HasMetadata(diff) {
      return false, zimCreator;
    }
    hide ReadLines, RedirectMap, Bytes, Kept, Added, Chosen, Filter, Patched, AllChosen, IsAdditionalMetadata;
    var fileUuid := DecodeUuid(diff.metadata["endfileuid"]);
    zimCreator.SetUuid(fileUuid);
    var mainPath := diff.metadata["mainaurl"];
    if mainPath in diff.entries || mainPath in start.entries {
      zimCreator.SetMainPath(mainPath);
    }
    var redirectList := DecodeRedirects(diff.metadata["redirectlist"]);
    var deleteList := SplitLines(diff.metadata["dlist"]);
    var dlist;
    ok, dlist := MarkDeleted(start, diff, deleteList);
    assert deleteList == DeletedPaths(diff);
    if !ok {
      return false, zimCreator;
    }
    AddKept(zimCreator, start, diff, redirectList, dlist);
    AddNew(zimCreator, start, diff, redirectList);
    IsPatched(start, diff, zimCreator);
  }

  // ---------- The round trip ----------

  /** The paths and targets that go through the newline-separated lists have no newline in them. */
  ghost predicate PathsFitLines(archive: Archive) {
    forall p :: p in archive.entries ==>
      '\n' !in p && (archive.entries[p].Redirect? ==> '\n' !in archive.entries[p].target)
  }

  /** `diff` holds what zimdiff told its creator, in some order of paths. */
  ghost predicate DiffOf(diff: Archive, start: Archive, end: Archive) {
    Valid(diff) && IsDiff(start, end, diff.entries, diff.metadata)
  }

  lemma {:induction false} FilterIsLines(archive: Archive, paths: seq<string>, keep: set<string>)
    requires PathsFitLines(archive) && forall i :: 0 <= i < |paths| ==> paths[i] in archive.entries
    ensures NewlineFree(Filter(paths, keep))
    ensures NewlineFree(WithTargets(archive, Filter(paths, keep)))
  {
    if paths != [] {
      FilterIsLines(archive, paths[..|paths| - 1], keep);
      var init := Filter(paths[..|paths| - 1], keep);
      assert (init + [paths[|paths| - 1]])[..|init|] == init;
    }
  }

  /** The delete list is read back as the deleted paths. */
  lemma DeletesReadBack(start: Archive, end: Archive, diff: Archive)
    requires Valid(start) && Valid(end) && PathsFitLines(start) && DiffOf(diff, start, end)
    ensures HasMetadata(diff) && DeletesKnown(start, diff)
    ensures forall p :: p in DeletedPaths(diff) <==> p in Deleted(start, end)
  {
    var deleted := Filter(start.paths, Deleted(start, end));
    FilterIsLines(start, start.paths, Deleted(start, end));
    LinesRoundTrip(deleted);
    hide Lines, ReadLines, Filter, WithTargets, Numbers, Redirects, Changed;
    assert DeletedPaths(diff) == deleted;
    forall p ensures p in deleted <==> p in Deleted(start, end) {
      InFilter(start.paths, Deleted(start, end), p);
    }
    forall k | 0 <= k < |deleted| ensures deleted[k] in start.entries {
      assert deleted[k] in deleted;
    }
  }

  lemma {:induction false} TargetsByPath(archive: Archive, paths: seq<string>)
    ensures |WithTargets(archive, paths)| % 2 == 0
    ensures var redirectList := RedirectMap(WithTargets(archive, paths));
            forall p :: (p in redirectList <==> p in paths)
                        && (p in redirectList ==> redirectList[p] == Target(archive, p))
  {
    if paths != [] {
      var init, last := paths[..|paths| - 1], paths[|paths| - 1];
      TargetsByPath(archive, init);
      var lines := WithTargets(archive, paths);
      assert lines[..|lines| - 2] == WithTargets(archive, init);
      assert paths == init + [last];
      hide WithTargets;
    }
  }

  /** The redirect list is read back as the targets of the end archive's redirects. */
  lemma RedirectsReadBack(start: Archive, end: Archive, diff: Archive)
    requires Valid(start) && Valid(end) && PathsFitLines(end) && DiffOf(diff, start, end)
    ensures HasMetadata(diff) && |RedirectLines(diff)| % 2 == 0
    ensures var redirectList := RedirectMap(RedirectLines(diff));
            forall p :: (p in redirectList <==> p in Redirects(end))
                        && (p in redirectList ==> redirectList[p] == Target(end, p))
  {
    var redirects := Filter(end.paths, Redirects(end));
    FilterIsLines(end, end.paths, Redirects(end));
    LinesRoundTrip(WithTargets(end, redirects));
    TargetsByPath(end, redirects);
    hide Lines, ReadLines, Filter, WithTargets, Numbers, RedirectMap, Changed, Deleted;
    assert RedirectLines(diff) == WithTargets(end, redirects);
    forall p ensures p in redirects <==> p in Redirects(end) {
      InFilter(end.paths, Redirects(end), p);
    }
  }

  lemma {:induction false} BytesOfNumbers(bytes: seq<int>)
    requires forall k :: 0 <= k < |bytes| ==> -128 <= bytes[k] < 128
    ensures NewlineFree(Numbers(bytes)) && Bytes(Numbers(bytes)) == bytes
  {
    hide NumberToString, Atoi;
    if bytes != [] {
      var init, last := bytes[..|bytes| - 1], bytes[|bytes| - 1];
      BytesOfNumbers(init);
      NumberRoundTrip(last);
      NumberIsALine(last);
      BytesStep(Numbers(init), NumberToString(last));
      assert bytes == init + [last];
    }
  }

  /** The UUID of the end archive is read back. */
  lemma UuidReadsBack(start: Archive, end: Archive, diff: Archive)
    requires Valid(start) && Valid(end) && DiffOf(diff, start, end)
    ensures HasMetadata(diff) && |ReadLines("", diff.metadata["endfileuid"])| == 16 && PatchedUuid(diff) == end.uuid
  {
    BytesOfNumbers(end.uuid);
    LinesRoundTrip(Numbers(end.uuid));
    hide Lines, ReadLines, Filter, WithTargets, Numbers, Redirects, Changed, Deleted, Bytes;
  }

  /** No path changes from a redirect to an item, and none that is new is taken for metadata of the diff. */
  ghost predicate Restorable(start: Archive, end: Archive) {
    forall p :: p in end.entries ==> RestorableAt(start, end, p)
  }

  ghost predicate RestorableAt(start: Archive, end: Archive, p: string)
    requires p in end.entries
  {
    && (p in start.entries && start.entries[p].Redirect? ==> end.entries[p].Redirect?)
    && (p !in start.entries ==>
          p !in {"M/dlist", "M/startfileuid", "M/endfileuid", "M/mainaurl", "M/layoutaurl", "M/redirectlist"})
  }

  lemma ReservedPaths(p: string)
    ensures IsAdditionalMetadata(p)
       <==> p in {"M/dlist", "M/startfileuid", "M/endfileuid", "M/mainaurl", "M/layoutaurl", "M/redirectlist"}
  {
  }

  /** Patching restores one path of the end archive or drops one that it does not have. */
  lemma PathRestored(start: Archive, end: Archive, diff: Archive, p: string)
    requires Valid(start) && Valid(end) && PathsFitLines(start) && PathsFitLines(end) && DiffOf(diff, start, end)
    ensures HasMetadata(diff) && WellFormed(diff)
    ensures p !in end.entries ==> p !in Patched(start, diff)
    ensures p in end.entries ==>
              (p in Patched(start, diff) && Patched(start, diff)[p] == end.entries[p] <==> RestorableAt(start, end, p))
  {
    DeletesReadBack(start, end, diff);
    RedirectsReadBack(start, end, diff);
    UuidReadsBack(start, end, diff);
    hide Lines, ReadLines, Filter, WithTargets, Numbers, RedirectMap, Bytes, IsAdditionalMetadata, Valid, PathsFitLines,
      PatchedUuid, DeletesKnown;
    ReservedPaths(p);
    assert p in Changed(start, end) <==> p in diff.entries;
    assert p in RedirectMap(RedirectLines(diff)) <==> p in Redirects(end);
    assert p in DeletedPaths(diff) <==> p in Deleted(start, end);
  }

  /** Patching the start archive with its diff succeeds and gives back exactly the entries of the end archive, if and
      only if no path turns from a redirect into an item and no new path is reserved; it always gives back the UUID; and
      it gives back the main path if and only if the path, or the empty one when there is none, is known. */
  lemma DiffPatchRoundTrip(start: Archive, end: Archive, diff: Archive)
    requires Valid(start) && Valid(end) && PathsFitLines(start) && PathsFitLines(end) && DiffOf(diff, start, end)
    ensures HasMetadata(diff) && WellFormed(diff) && DeletesKnown(start, diff)
    ensures Patched(start, diff) == end.entries <==> Restorable(start, end)
    ensures PatchedUuid(diff) == end.uuid
    ensures PatchedMain(start, diff) == end.mainPath
       <==> match end.mainPath
            case Some(p) => p in start.entries || p in end.entries
            case None => "" !in start.entries && "" !in end.entries
  {
    hide *;
    DeletesReadBack(start, end, diff);
    UuidReadsBack(start, end, diff);
    EntriesRestored(start, end, diff);
    MainRestored(start, end, diff);
  }

  lemma EntriesRestored(start: Archive, end: Archive, diff: Archive)
    requires Valid(start) && Valid(end) && PathsFitLines(start) && PathsFitLines(end) && DiffOf(diff, start, end)
    ensures HasMetadata(diff) && WellFormed(diff)
    ensures Patched(start, diff) == end.entries <==> Restorable(start, end)
  {
    PathRestored(start, end, diff, "");
    hide WellFormed, HasMetadata, RestorableAt, Patched, PathsFitLines, Valid, DiffOf;
    forall p ensures p !in end.entries ==> p !in Patched(start, diff) {
      PathRestored(start, end, diff, p);
    }
    forall p | p in end.entries
      ensures p in Patched(start, diff) && Patched(start, diff)[p] == end.entries[p] <==> RestorableAt(start, end, p)
    {
      PathRestored(start, end, diff, p);
    }
    MapsEqual(Patched(start, diff), end.entries);
  }

  lemma MapsEqual(m: map<string, Entry>, n: map<string, Entry>)
    requires forall p :: p !in n ==> p !in m
    ensures m == n <==> forall p :: p in n ==> p in m && m[p] == n[p]
  {
  }

  lemma MainRestored(start: Archive, end: Archive, diff: Archive)
    requires DiffOf(diff, start, end)
    ensures HasMetadata(diff)
    ensures PatchedMain(start, diff) == end.mainPath
       <==> match end.mainPath
            case Some(p) => p in start.entries || p in end.entries
            case None => "" !in start.entries && "" !in end.entries
  {
    hide Lines, Filter, WithTargets, Numbers;
    var p := if end.mainPath.Some? then end.mainPath.value else "";
    assert diff.metadata["mainaurl"] == p;
    assert p in diff.entries <==> p in Changed(start, end);
    assert p in diff.entries || p in start.entries <==> p in end.entries || p in start.entries;
  }

  /** The diff carries no entry that is not needed: without any one of them its path is not restored. */
  lemma EveryEntryIsNeeded(start: Archive, end: Archive, diff: Archive, p: string)
    requires Valid(start) && Valid(end) && PathsFitLines(start) && PathsFitLines(end) && DiffOf(diff, start, end)
    requires p in diff.entries
    ensures var less := diff.(entries := diff.entries - {p});
            && HasMetadata(less) && WellFormed(less) && p in end.entries
            && !(p in Patched(start, less) && Patched(start, less)[p] == end.entries[p])
  {
    DeletesReadBack(start, end, diff);
    RedirectsReadBack(start, end, diff);
    UuidReadsBack(start, end, diff);
    hide Lines, ReadLines, Filter, WithTargets, Numbers, RedirectMap, Bytes, IsAdditionalMetadata, Valid, PathsFitLines,
      PatchedUuid, DeletesKnown;
    var less := diff.(entries := diff.entries - {p});
    assert p in Changed(start, end);
    assert RedirectLines(less) == RedirectLines(diff) && DeletedPaths(less) == DeletedPaths(diff);
    assert p in RedirectMap(RedirectLines(diff)) <==> p in Redirects(end);
  }

  /** The diff also tells the UUID of the archive it is for. */
  lemma StartUuidReadsBack(start: Archive, end: Archive, diff: Archive)
    requires Valid(start) && DiffOf(diff, start, end)
    ensures "startfileuid" in diff.metadata && Bytes(ReadLines("", diff.metadata["startfileuid"])) == start.uuid
  {
    BytesOfNumbers(start.uuid);
    LinesRoundTrip(Numbers(start.uuid));
    hide Lines, ReadLines, Filter, WithTargets, Numbers, Redirects, Changed, Deleted, Bytes;
  }

  /** What becomes of the paths that are not restored: a redirect that was to become an item stays as it was, and a new
      entry under a reserved path is missing. */
  lemma WhatIsLost(start: Archive, end: Archive, diff: Archive, p: string)
    requires Valid(start) && Valid(end) && PathsFitLines(start) && PathsFitLines(end) && DiffOf(diff, start, end)
    requires p in end.entries
    ensures HasMetadata(diff) && WellFormed(diff)
    ensures p in start.entries && start.entries[p].Redirect? && end.entries[p].Item? ==>
              p in Patched(start, diff) && Patched(start, diff)[p] == start.entries[p]
    ensures p in {"M/dlist", "M/startfileuid", "M/endfileuid", "M/mainaurl", "M/layoutaurl", "M/redirectlist"} ==>
              p !in start.entries ==> p !in Patched(start, diff)
  {
    ReservedPaths(p);
    PathRestored(start, end, diff, p);
    DeletesReadBack(start, end, diff);
    RedirectsReadBack(start, end, diff);
    hide Lines, ReadLines, Filter, WithTargets, Numbers, RedirectMap, Bytes, IsAdditionalMetadata, Valid, PathsFitLines;
    assert p in diff.entries <==> p in Changed(start, end);
    assert p in RedirectMap(RedirectLines(diff)) <==> p in Redirects(end);
  }

  // ---------- The smallest archives that are not restored ----------

  lemma {:induction false} FilterIsDistinct(paths: seq<string>, keep: set<string>)
    requires Distinct(paths)
    ensures Distinct(Filter(paths, keep))
  {
    if paths != [] {
      var init, last := paths[..|paths| - 1], paths[|paths| - 1];
      FilterIsDistinct(init, keep);
      InFilter(init, keep, last);
      assert last !in init;
      hide Filter;
    }
  }

  /** A diff of any two archives. */
  ghost function DiffArchive(start: Archive, end: Archive): Archive {
    Archive(Filter(end.paths, Changed(start, end)), map p | p in Changed(start, end) :: end.entries[p],
            DiffMetadata(start, end), None, end.uuid)
  }

  lemma DiffArchiveIsDiff(start: Archive, end: Archive)
    requires Valid(end)
    ensures DiffOf(DiffArchive(start, end), start, end)
  {
    hide Filter, DiffMetadata;
    var diff := DiffArchive(start, end);
    FilterIsDistinct(end.paths, Changed(start, end));
    forall p ensures p in diff.entries <==> p in diff.paths {
      InFilter(end.paths, Changed(start, end), p);
    }
    forall i | 0 <= i < |diff.paths| ensures diff.paths[i] in diff.entries {
      assert diff.paths[i] in diff.paths;
    }
  }

  function OneEntry(path: string, entry: Entry): Archive {
    Archive([path], map[path := entry], map[], None, seq(16, _ => 0))
  }

  /** An item in the place of a redirect: the redirect stays. */
  lemma ItemInPlaceOfRedirect() returns (diff: Archive)
    ensures DiffOf(diff, OneEntry("a", Redirect("b")), OneEntry("a", Item("text")))
    ensures HasMetadata(diff) && WellFormed(diff)
    ensures Patched(OneEntry("a", Redirect("b")), diff) == map["a" := Redirect("b")]
  {
    hide DiffOf, Filter, Patched, DiffArchive, HasMetadata, WellFormed, Valid, PathsFitLines;
    var start, end := OneEntry("a", Redirect("b")), OneEntry("a", Item("text"));
    diff := DiffArchive(start, end);
    OneEntryRestored(start, end, diff, "a");
    WhatIsLost(start, end, diff, "a");
  }

  /** A new entry under a reserved path: it is missing. */
  lemma ReservedPathIsDropped() returns (diff: Archive)
    ensures DiffOf(diff, OneEntry("a", Item("text")), OneEntry("M/dlist", Item("text")))
    ensures HasMetadata(diff) && WellFormed(diff)
    ensures Patched(OneEntry("a", Item("text")), diff) == map[]
  {
    hide DiffOf, Filter, Patched, DiffArchive, HasMetadata, WellFormed, Valid, PathsFitLines;
    var start, end := OneEntry("a", Item("text")), OneEntry("M/dlist", Item("text"));
    assert "a" != "M/dlist";
    diff := DiffArchive(start, end);
    OneEntryRestored(start, end, diff, "M/dlist");
    WhatIsLost(start, end, diff, "M/dlist");
  }

  /** A main path without an entry is not set again, and without a main path an entry with an empty path becomes it. */
  lemma MainPathIsLost() returns (diff: Archive, unnamed: Archive)
    ensures DiffOf(diff, OneEntry("a", Item("text")), OneEntry("a", Item("text")).(mainPath := Some("b")))
    ensures HasMetadata(diff) && PatchedMain(OneEntry("a", Item("text")), diff) == None
    ensures DiffOf(unnamed, OneEntry("", Item("text")), OneEntry("", Item("text")))
    ensures HasMetadata(unnamed) && PatchedMain(OneEntry("", Item("text")), unnamed) == Some("")
  {
    hide Filter, Valid, Lines, WithTargets, Numbers;
    var start := OneEntry("a", Item("text"));
    var end := start.(mainPath := Some("b"));
    OneEntryIsValid("a", Item("text"));
    assert Valid(end) by {
      ValidWithMain(start, Some("b"));
    }
    diff := DiffArchive(start, end);
    DiffArchiveIsDiff(start, end);
    OneEntryIsValid("", Item("text"));
    unnamed := DiffArchive(OneEntry("", Item("text")), OneEntry("", Item("text")));
    DiffArchiveIsDiff(OneEntry("", Item("text")), OneEntry("", Item("text")));
  }

  lemma ValidWithMain(archive: Archive, mainPath: Option<string>)
    requires Valid(archive)
    ensures Valid(archive.(mainPath := mainPath))
  {
  }

  lemma OneEntryIsValid(path: string, entry: Entry)
    requires '\n' !in path && (entry.Redirect? ==> '\n' !in entry.target)
    ensures Valid(OneEntry(path, entry)) && PathsFitLines(OneEntry(path, entry))
  {
    assert OneEntry(path, entry).paths[0] == path;
  }

  /** The patched archive has no path but that of the one entry. */
  lemma OneEntryRestored(start: Archive, end: Archive, diff: Archive, path: string)
    requires start in {OneEntry("a", Redirect("b")), OneEntry("a", Item("text"))}
    requires '\n' !in path && end == OneEntry(path, Item("text")) && diff == DiffArchive(start, end)
    ensures Valid(start) && Valid(end) && PathsFitLines(start) && PathsFitLines(end) && DiffOf(diff, start, end)
    ensures HasMetadata(diff) && WellFormed(diff) && forall p :: p in Patched(start, diff) ==> p == path
  {
    hide DiffOf, Filter, Patched, DiffArchive, HasMetadata, WellFormed, Valid, PathsFitLines;
    OneEntryIsValid("a", Redirect("b"));
    OneEntryIsValid("a", Item("text"));
    OneEntryIsValid(path, Item("text"));
    DiffArchiveIsDiff(start, end);
    EntriesRestored(start, end, diff);
    forall p ensures p in Patched(start, diff) ==> p == path {
      PathRestored(start, end, diff, p);
    }
  }
}
