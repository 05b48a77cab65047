/**
 Archives as zimdiff and zimpatch see them, and the creator they write through. The creator stores what it is told.
 */
module ZimArchives {
  import opened Options
  import opened Sequences

  datatype Entry = Item(data: string) | Redirect(target: string)

  /** `paths` lists the paths in the order of their indices; `uuid` is 16 signed bytes. */
  datatype Archive = Archive(paths: seq<string>, entries: map<string, Entry>, metadata: map<string, string>,
                             mainPath: Option<string>, uuid: seq<int>)

  ghost predicate Lists(paths: seq<string>, entries: map<string, Entry>) {
    && Distinct(paths)
    && (forall i :: 0 <= i < |paths| ==> paths[i] in entries)
    && forall p :: p in entries ==> p in paths
  }

  ghost predicate Valid(archive: Archive) {
    && Lists(archive.paths, archive.entries)
    && |archive.uuid| == 16 && forall k :: 0 <= k < 16 ==> -128 <= archive.uuid[k] < 128
  }

  /** `getEntryByPath(path).getIndex()`. */
  function IndexOf(paths: seq<string>, path: string): (i: nat)
    requires path in paths
    ensures i < |paths| && paths[i] == path
  {
    if paths[|paths| - 1] == path then |paths| - 1
    else
      assert paths == paths[..|paths| - 1] + [paths[|paths| - 1]];
      IndexOf(paths[..|paths| - 1], path)
  }

  /** The paths that are in `keep`, in order. */
  function Filter(paths: seq<string>, keep: set<string>): seq<string> {
    if paths == [] then []
    else
      var last := paths[|paths| - 1];
      var init := Filter(paths[..|paths| - 1], keep);
      if last in keep then init + [last] else init
  }

  lemma FilterStep(paths: seq<string>, keep: set<string>, i: nat)
    requires i < |paths|
    ensures Filter(paths[..i + 1], keep)
         == if paths[i] in keep then Filter(paths[..i], keep) + [paths[i]] else Filter(paths[..i], keep)
  {
    assert paths[..i + 1][..i] == paths[..i];
  }

  lemma {:induction false} InFilter(paths: seq<string>, keep: set<string>, p: string)
    ensures p in Filter(paths, keep) <==> p in paths && p in keep
  {
    if paths != [] {
      var init, last := paths[..|paths| - 1], paths[|paths| - 1];
      InFilter(init, keep, p);
      assert paths == init + [last];
    }
  }

  class Creator {
    var paths: seq<string>
    var entries: map<string, Entry>
    var metadata: map<string, string>
    var mainPath: Option<string>
    var uuid: Option<seq<int>>

    constructor ()
      ensures Valid() && paths == [] && entries == map[] && metadata == map[] && mainPath == None && uuid == None
    {
      paths, entries, metadata, mainPath, uuid := [], map[], map[], None, None;
    }

    ghost predicate Valid()
      reads this
    {
      Lists(paths, entries)
    }

    lemma NothingTold()
      requires Valid() && paths == []
      ensures entries == map[]
    {
    }

    /** `addItem` or `addRedirection`. Each path is to be told once. */
    method Add(path: string, entry: Entry)
      requires Valid() && path !in paths
      modifies this`paths, this`entries
      ensures Valid() && paths == old(paths) + [path] && entries == old(entries)[path := entry]
    {
      paths, entries := paths + [path], entries[path := entry];
    }

    method AddMetadata(name: string, content: string)
      modifies this`metadata
      ensures metadata == old(metadata)[name := content]
    {
      metadata := metadata[name := content];
    }

    method SetMainPath(path: string)
      modifies this`mainPath
      ensures mainPath == Some(path)
    {
      mainPath := Some(path);
    }

    method SetUuid(bytes: seq<int>)
      modifies this`uuid
      ensures uuid == Some(bytes)
    {
      uuid := Some(bytes);
    }
  }
}
