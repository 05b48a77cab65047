/**
 Making a diff between two archives (`create` of src/zimdiff.cpp).
 */
module ZimDiffs {
  import opened LineLists
  import opened Options
  import opened ZimArchives

  /** The paths the diff carries entries for: those new in the end archive and those of changed items. */
  ghost function Changed(start: Archive, end: Archive): set<string> {
    set p | p in end.entries && IsChanged(start, end, p)
  }

  ghost predicate IsChanged(start: Archive, end: Archive, p: string)
    requires p in end.entries
  {
    || p !in start.entries
    || (end.entries[p].Item? && start.entries[p].Item? && end.entries[p].data != start.entries[p].data)
  }

  ghost function Deleted(start: Archive, end: Archive): set<string> {
    start.entries.Keys - end.entries.Keys
  }

  ghost function Redirects(end: Archive): set<string> {
    set p | p in end.entries && end.entries[p].Redirect?
  }

  function Target(archive: Archive, p: string): string {
    if p in archive.entries && archive.entries[p].Redirect? then archive.entries[p].target else ""
  }

  /** Each path and then its target. */
  ghost function WithTargets(archive: Archive, paths: seq<string>): seq<string> {
    if paths == [] then []
    else
      var last := paths[|paths| - 1];
      WithTargets(archive, paths[..|paths| - 1]) + [last, Target(archive, last)]
  }

  ghost function Numbers(bytes: seq<int>): seq<string> {
    if bytes == [] then []
    else Numbers(bytes[..|bytes| - 1]) + [NumberToString(bytes[|bytes| - 1])]
  }

  /** The entries are as in the end archive. */
  ghost predicate FromEnd(entries: map<string, Entry>, end: Archive) {
    forall p :: p in entries ==> p in end.entries && entries[p] == end.entries[p]
  }

  ghost function DiffMetadata(start: Archive, end: Archive): map<string, string> {
    map["dlist" := Lines(Filter(start.paths, Deleted(start, end))),
        "redirectlist" := Lines(WithTargets(end, Filter(end.paths, Redirects(end)))),
        "startfileuid" := Lines(Numbers(start.uuid)),
        "endfileuid" := Lines(Numbers(end.uuid)),
        "mainaurl" := if end.mainPath.Some? then end.mainPath.value else ""]
  }

  /** What the creator of the diff is told. */
  ghost predicate IsDiff(start: Archive, end: Archive, entries: map<string, Entry>, metadata: map<string, string>) {
    && entries.Keys == Changed(start, end)
    && FromEnd(entries, end)
    && metadata == DiffMetadata(start, end)
  }

  method DeleteList(start: Archive, end: Archive) returns (dlist: string)
    requires Valid(start)
    ensures dlist == Lines(Filter(start.paths, Deleted(start, end)))
  {
    dlist := "";
    ghost var keep := Deleted(start, end);
    hide Filter, Lines;
    assert Filter(start.paths[..0], keep) == [] && Lines([]) == "" by {
      NothingListed(start.paths, keep);
    }
    for i := 0 to |start.paths|
      invariant dlist == Lines(Filter(start.paths[..i], keep))
    {
      FilterStep(start.paths, keep, i);
      LinesAppend(Filter(start.paths[..i], keep), start.paths[i]);
      if start.paths[i] !in end.entries {
        dlist := dlist + start.paths[i] + "\n";
      }
    }
    assert start.paths[..|start.paths|] == start.paths;
  }

  lemma NothingListed(paths: seq<string>, keep: set<string>)
    ensures Filter(paths[..0], keep) == [] && Lines([]) == ""
  {
  }

  lemma WithTargetsAppend(archive: Archive, paths: seq<string>, path: string)
    ensures Lines(WithTargets(archive, paths + [path]))
         == Lines(WithTargets(archive, paths)) + path + "\n" + Target(archive, path) + "\n"
  {
    assert (paths + [path])[..|paths|] == paths;
    var lines := WithTargets(archive, paths);
    hide Lines;
    assert lines + [path, Target(archive, path)] == lines + [path] + [Target(archive, path)];
    LinesAppend(lines, path);
    LinesAppend(lines + [path], Target(archive, path));
  }

  method RedirectList(end: Archive) returns (redirectList: string)
    requires Valid(end)
    ensures redirectList == Lines(WithTargets(end, Filter(end.paths, Redirects(end))))
  {
    redirectList := "";
    ghost var keep := Redirects(end);
    NothingListed(end.paths, keep);
    assert WithTargets(end, []) == [];
    hide Filter, Lines, WithTargets;
    for i := 0 to |end.paths|
      invariant redirectList == Lines(WithTargets(end, Filter(end.paths[..i], keep)))
    {
      var path := end.paths[i];
      FilterStep(end.paths, keep, i);
      WithTargetsAppend(end, Filter(end.paths[..i], keep), path);
      if end.entries[path].Redirect? {
        redirectList := redirectList + path + "\n" + end.entries[path].target + "\n";
      }
    }
    assert end.paths[..|end.paths|] == end.paths;
  }

  lemma NumbersStep(bytes: seq<int>, i: nat)
    requires i < |bytes|
    ensures Lines(Numbers(bytes[..i + 1])) == Lines(Numbers(bytes[..i])) + NumberToString(bytes[i]) + "\n"
  {
    assert bytes[..i + 1][..i] == bytes[..i];
    LinesAppend(Numbers(bytes[..i]), NumberToString(bytes[i]));
    hide Lines, NumberToString;
  }

  method UuidText(uuid: seq<int>) returns (text: string)
    requires |uuid| == 16
    ensures text == Lines(Numbers(uuid))
  {
    text := "";
    assert Numbers(uuid[..0]) == [] && Lines([]) == "";
    hide *;
    for i := 0 to 16
      invariant text == Lines(Numbers(uuid[..i]))
    {
      NumbersStep(uuid, i);
      text := text + NumberToString(uuid[i]);
      text := text + "\n";
    }
    assert uuid[..16] == uuid;
  }

  /** The last loop: entries of the end archive that are new, and items whose data changed. */
  method AddChanged(zimCreator: Creator, start: Archive, end: Archive)
    requires Valid(start) && Valid(end) && zimCreator.Valid() && zimCreator.paths == []
    modifies zimCreator`paths, zimCreator`entries
    ensures zimCreator.Valid() && zimCreator.entries.Keys == Changed(start, end)
    ensures FromEnd(zimCreator.entries, end)
  {
    hide *;
    ghost var changed := Changed(start, end);
    NothingListed(end.paths, changed);
    zimCreator.NothingTold();
    NothingFromEnd(end);
    for i := 0 to |end.paths|
      invariant zimCreator.Valid() && zimCreator.paths == Filter(end.paths[..i], changed)
      invariant FromEnd(zimCreator.entries, end)
    {
      ChangedStep(start, end, i);
      var path := end.paths[i];
      FromEndToo(zimCreator.entries, end, path);
      var entry2 := end.entries[path];
      if path in start.entries {
        var entry1 := start.entries[path];
        if entry2.Redirect? || entry1.Redirect? {
          continue;
        }
        if entry2.data != entry1.data {
          zimCreator.Add(path, Item(entry2.data));
          continue;
        }
      } else {
        if entry2.Redirect? {
          zimCreator.Add(path, Redirect(entry2.target));
        } else {
          zimCreator.Add(path, Item(entry2.data));
        }
        continue;
      }
    }
    AllChanged(start, end, zimCreator);
  }

  method Create(start: Archive, end: Archive) returns (zimCreator: Creator)
    requires Valid(start) && Valid(end)
    ensures fresh(zimCreator) && zimCreator.Valid()
    ensures IsDiff(start, end, zimCreator.entries, zimCreator.metadata)
    ensures forall p :: p in zimCreator.entries <==>
              && p in end.entries
              && (|| p !in start.entries
                  || (end.entries[p].Item? && start.entries[p].Item? && end.entries[p].data != start.entries[p].data))
    ensures forall p :: p in zimCreator.entries ==> zimCreator.entries[p] == end.entries[p]
    ensures zimCreator.metadata.Keys == {"dlist", "redirectlist", "startfileuid", "endfileuid", "mainaurl"}
  {
    hide Filter, Lines, WithTargets, Numbers, Deleted, Redirects, Changed;
    zimCreator := new Creator();
    var dlist := DeleteList(start, end);
    zimCreator.AddMetadata("dlist", dlist);
    var redirectList := RedirectList(end);
    zimCreator.AddMetadata("redirectlist", redirectList);
    var startFileUID := UuidText(start.uuid);
    zimCreator.AddMetadata("startfileuid", startFileUID);
    var endFileUID := UuidText(end.uuid);
    zimCreator.AddMetadata("endfileuid", endFileUID);
    var mainAurl := "";
    if end.mainPath.Some? {
      mainAurl := end.mainPath.value;
    }
    zimCreator.AddMetadata("mainaurl", mainAurl);
    AddChanged(zimCreator, start, end);
    DiffInFields(start, end, zimCreator.entries, zimCreator.metadata);
  }

  lemma DiffInFields(start: Archive, end: Archive, entries: map<string, Entry>, metadata: map<string, string>)
    requires IsDiff(start, end, entries, metadata)
    ensures forall p :: p in entries <==>
              && p in end.entries
              && (|| p !in start.entries
                  || (end.entries[p].Item? && start.entries[p].Item? && end.entries[p].data != start.entries[p].data))
    ensures forall p :: p in entries ==> entries[p] == end.entries[p]
    ensures metadata.Keys == {"dlist", "redirectlist", "startfileuid", "endfileuid", "mainaurl"}
  {
    hide Filter, Lines, WithTargets, Numbers, Deleted, Redirects;
  }

  lemma NothingFromEnd(end: Archive)
    ensures FromEnd(map[], end)
  {
  }

  lemma FromEndToo(entries: map<string, Entry>, end: Archive, p: string)
    requires FromEnd(entries, end) && p in end.entries
    ensures FromEnd(entries[p := end.entries[p]], end)
  {
  }

  lemma ChangedStep(start: Archive, end: Archive, i: nat)
    requires Valid(end) && i < |end.paths|
    ensures var path := end.paths[i];
            && path in end.entries && path !in Filter(end.paths[..i], Changed(start, end))
            && Filter(end.paths[..i + 1], Changed(start, end))
               == if path !in start.entries
                     || (end.entries[path].Item? && start.entries[path].Item?
                         && end.entries[path].data != start.entries[path].data)
                  then Filter(end.paths[..i], Changed(start, end)) + [path]
                  else Filter(end.paths[..i], Changed(start, end))
  {
    FilterStep(end.paths, Changed(start, end), i);
    InFilter(end.paths[..i], Changed(start, end), end.paths[i]);
    hide Filter;
  }

  lemma AllChanged(start: Archive, end: Archive, zimCreator: Creator)
    requires Valid(end) && zimCreator.Valid()
    requires zimCreator.paths == Filter(end.paths[..|end.paths|], Changed(start, end))
    ensures zimCreator.entries.Keys == Changed(start, end)
  {
    assert end.paths[..|end.paths|] == end.paths;
    hide Filter;
    forall p ensures p in zimCreator.entries <==> p in Changed(start, end) {
      InFilter(end.paths, Changed(start, end), p);
    }
  }
}
