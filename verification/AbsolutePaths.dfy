/**
 Absolute paths of relative ones (`computeAbsolutePath` and `removeLastPathElement` of src/tools.cpp). The loop keeps
 the directory stack as a string with a slash after each segment, which, unlike the link resolver's, is unambiguous.
 */
module AbsolutePaths {
  import opened PathSegments
  import opened Sequences
  import opened RelativePaths
  import LinkResolvers
  import opened Rfc3986

  /** `substr(0, n)`, where an offset of -1 stands for `npos`. */
  function Prefix(s: string, n: int): string
    requires -1 <= n <= |s|
  {
    if n == -1 then s else s[..n]
  }

  function RemoveLastPathElement(path: string, removePreSeparator: bool, removePostSeparator: bool): string {
    var offset := FindLast(path, '/');
    var pre := removePreSeparator && offset == |path| - 1;
    var newPath := if pre then Prefix(path, offset) else path;
    var offset' := if pre then FindLast(newPath, '/') else offset;
    if removePostSeparator then Prefix(newPath, offset') else newPath[..offset' + 1]
  }

  method ComputeAbsolutePath(path: string, relativePath: string) returns (r: string)
    ensures r == Join(Descend(LinkResolvers.BaseStack(path), Split(relativePath, '/')), '/')
  {
    hide Split, Join, Find, FindLast, RemoveLastPathElement, LinkResolvers.BaseStack, Descend, Directory, DelimFree,
      Lacks;
    var absolutePath := path;
    if |path| > 0 && path[|path| - 1] != '/' {
      absolutePath := RemoveLastPathElement(path, false, false);
    }
    ghost var stack := LinkResolvers.BaseStack(path);
    ghost var target := Descend(stack, Split(relativePath, '/'));
    StartDirectory(path);
    var pos := 0;
    assert relativePath[0..] == relativePath;
    // std::getline delivers an item as long as characters are left
    while pos < |relativePath|
      invariant 0 <= pos <= |relativePath| + 1
      invariant absolutePath == Directory(stack) && DelimFree(stack, '/')
      invariant target == if pos > |relativePath| then stack else Descend(stack, Split(relativePath[pos..], '/'))
      decreases |relativePath| - pos
    {
      var rest := relativePath[pos..];
      var length := Find(rest, '/', 0);
      var item := rest[..length];
      NextItem(rest, stack);
      assert length < |rest| ==> rest[length + 1..] == relativePath[pos + length + 1..];
      if item == ".." {
        Popped(stack);
        absolutePath := RemoveLastPathElement(absolutePath, true, false);
      } else if item != "" && item != "." {
        Pushed(stack, item);
        absolutePath := absolutePath + item;
        absolutePath := absolutePath + "/";
      }
      stack := Enter(stack, item);
      pos := pos + length + 1;
    }
    DescendEmpty(stack);
    assert pos == |relativePath| ==> relativePath[pos..] == "";
    WithoutTrailingSlash(stack);
    r := if absolutePath == "" then "" else absolutePath[..|absolutePath| - 1];
  }

  lemma StartDirectory(path: string)
    ensures DelimFree(LinkResolvers.BaseStack(path), '/')
    ensures (if |path| > 0 && path[|path| - 1] != '/' then RemoveLastPathElement(path, false, false) else path)
            == Directory(LinkResolvers.BaseStack(path))
  {
    DirectoryOf(path);
    hide LinkResolvers.BaseStack, Directory;
  }

  // ---------- On stacks ----------

  /** One path element: ".." leaves the directory (the root stays), "." and empty elements stay. */
  function Enter(stack: seq<string>, item: string): seq<string> {
    if item == ".." then (if stack == [] then [] else stack[..|stack| - 1])
    else if item == "" || item == "." then stack
    else stack + [item]
  }

  function Descend(stack: seq<string>, items: seq<string>): seq<string>
    decreases |items|
  {
    if items == [] then stack else Descend(Enter(stack, items[0]), items[1..])
  }

  /** A directory as the code writes it: each segment followed by a slash. */
  function Directory(stack: seq<string>): string {
    if stack == [] then "" else Directory(stack[..|stack| - 1]) + stack[|stack| - 1] + "/"
  }

  lemma DirectoryAppend(stack: seq<string>, x: string)
    ensures Directory(stack + [x]) == Directory(stack) + x + "/"
  {
    assert (stack + [x])[..|stack|] == stack;
  }

  lemma {:induction false} DirectoryIsJoin(stack: seq<string>)
    ensures Directory(stack) == if stack == [] then "" else Join(stack, '/') + "/"
  {
    if stack != [] {
      var init, last := stack[..|stack| - 1], stack[|stack| - 1];
      DirectoryIsJoin(init);
      JoinAppend(init, last, '/');
      assert stack == init + [last];
    }
  }

  lemma WithoutTrailingSlash(stack: seq<string>)
    ensures var path := Directory(stack);
            (if path == "" then "" else path[..|path| - 1]) == Join(stack, '/')
  {
    DirectoryIsJoin(stack);
  }

  /** The part of a path up to its last slash is the directory of its base stack. */
  lemma DirectoryOf(path: string)
    ensures path[..FindLast(path, '/') + 1] == Directory(LinkResolvers.BaseStack(path))
    ensures DelimFree(LinkResolvers.BaseStack(path), '/')
  {
    var segments := Split(path, '/');
    var base, last := LinkResolvers.BaseStack(path), segments[|segments| - 1];
    hide Split;
    JoinSplit(path, '/');
    SplitIsDelimFree(path, '/');
    assert segments == base + [last];
    JoinAppend(base, last, '/');
    DirectoryIsJoin(base);
    hide FindLast, Directory, Join;
    if base == [] {
      FindLastInJoin("", last, '/');
    } else {
      FindLastInJoin(Join(base, '/'), last, '/');
    }
  }

  /** Each directory string ends with its only last slash. */
  lemma Popped(stack: seq<string>)
    requires DelimFree(stack, '/')
    ensures RemoveLastPathElement(Directory(stack), true, false) == Directory(Enter(stack, ".."))
  {
    if stack != [] {
      var init, last := stack[..|stack| - 1], stack[|stack| - 1];
      var shorter := Directory(init) + last;
      assert Directory(stack) == shorter + ['/'] + "";
      FindLastInJoin(shorter, "", '/');
      assert Prefix(Directory(stack), |shorter|) == shorter;
      LastSlash(init, last);
    }
  }

  lemma LastSlash(init: seq<string>, last: string)
    requires Lacks(last, '/')
    ensures FindLast(Directory(init) + last, '/') == |Directory(init)| - 1
    ensures (Directory(init) + last)[..|Directory(init)|] == Directory(init)
  {
    if init == [] {
      FindLastInJoin("", last, '/');
      assert "" + last == last;
    } else {
      var rest := Directory(init[..|init| - 1]) + init[|init| - 1];
      assert Directory(init) == rest + ['/'];
      FindLastInJoin(rest, last, '/');
    }
  }

  lemma Pushed(stack: seq<string>, item: string)
    requires DelimFree(stack, '/')
    ensures Directory(stack + [item]) == Directory(stack) + item + "/"
  {
    DirectoryAppend(stack, item);
  }

  lemma NextItem(rest: string, stack: seq<string>)
    ensures var length := Find(rest, '/', 0);
            && Descend(stack, Split(rest, '/'))
               == (if length < |rest| then Descend(Enter(stack, rest[..length]), Split(rest[length + 1..], '/'))
                   else Enter(stack, rest[..length]))
            && Lacks(rest[..length], '/')
            && (DelimFree(stack, '/') ==> DelimFree(Enter(stack, rest[..length]), '/'))
  {
    hide Split, Find;
    SplitStep(rest, '/');
    var length := Find(rest, '/', 0);
    if length < |rest| {
      var tail := Split(rest[length + 1..], '/');
      assert ([rest[..length]] + tail)[1..] == tail;
    } else {
      assert rest[..length] == rest;
    }
  }

  lemma DescendEmpty(stack: seq<string>)
    ensures Descend(stack, Split("", '/')) == stack
  {
    SplitFirst("", "", '/');
  }

  // ---------- Section 5.2.4 of RFC 3986 ----------

  lemma {:induction false} EmptyItemsVanish(stack: seq<string>, items: seq<string>)
    ensures Descend(stack, items) == Descend(stack, NonEmpty(items))
    decreases |items|
  {
    if items != [] {
      NonEmptyStep(items);
      EmptyItemsVanish(Enter(stack, items[0]), items[1..]);
      hide NonEmpty;
      if items[0] != "" {
        assert NonEmpty(items)[1..] == NonEmpty(items[1..]);
      }
    }
  }

  predicate IsDots(item: string) {
    item == "." || item == ".."
  }

  /** The directory reached is the path that the standard gives for the relative one, ".." at the root ignored; a final
      dot segment leaves a slash there. */
  lemma {:induction false} DescendIsRemoveDots(stack: seq<string>, items: seq<string>)
    requires DelimFree(stack, '/') && DelimFree(items, '/') && items != []
    requires forall i :: 0 <= i < |items| ==> items[i] != ""
    ensures Slashed(Descend(stack, items)) + (if IsDots(items[|items| - 1]) then "/" else "")
            == RemoveDots(['/'] + Join(items, '/'), Slashed(stack))
    decreases |items|
  {
    hide RemoveDots, ClimbsTooFar, WithoutLast, Slashed, Join, Lacks, Descend;
    DescendFirst(stack, items);
    var p, rest := items[0], items[1..];
    var after := if rest == [] then "" else ['/'] + Join(rest, '/');
    SegmentsText(items);
    RemoveDotsStep(p, after, Slashed(stack));
    SlashedNothing();
    var stack' := Enter(stack, p);
    if p == ".." {
      if stack != [] {
        SlashedPop(stack);
      } else {
        NothingBelowRoot();
      }
    } else if p != "." {
      SlashedAppend(stack, p);
    }
    if rest == [] {
      Nothing(Slashed(stack'));
      NowhereToGo(stack');
      assert Slashed(stack') + "" == Slashed(stack') && ['/'] + "" == "/";
    } else {
      DescendIsRemoveDots(stack', rest);
    }
  }

  lemma DescendFirst(stack: seq<string>, items: seq<string>)
    requires items != []
    ensures Descend(stack, items) == Descend(Enter(stack, items[0]), items[1..])
  {
  }

  lemma NothingBelowRoot()
    ensures WithoutLast("") == ""
  {
  }

  /** What `computeAbsolutePath` computes, in the terms of the standard: the relative path without its empty elements is
      resolved against the directory of the path, ".." at the root ignored. */
  lemma AbsoluteIsRfc(path: string, relativePath: string)
    ensures var base, items := LinkResolvers.BaseStack(path), NonEmpty(Split(relativePath, '/'));
            Slashed(Descend(base, Split(relativePath, '/')))
            + (if items != [] && IsDots(items[|items| - 1]) then "/" else "")
            == if items == [] then Slashed(base) else RemoveDots(['/'] + Join(items, '/'), Slashed(base))
  {
    var base, all := LinkResolvers.BaseStack(path), Split(relativePath, '/');
    hide Split, RemoveDots, Slashed, Join, Descend, NonEmpty, LinkResolvers.BaseStack;
    SplitIsDelimFree(relativePath, '/');
    DirectoryOf(path);
    EmptyItemsVanish(base, all);
    NonEmptyItems(all);
    if NonEmpty(all) == [] {
      NowhereToGo(base);
      assert Slashed(base) + "" == Slashed(base);
    } else {
      DescendIsRemoveDots(base, NonEmpty(all));
    }
  }

  lemma NowhereToGo(stack: seq<string>)
    ensures Descend(stack, []) == stack
  {
  }

  lemma {:induction false} NonEmptyItems(items: seq<string>)
    requires DelimFree(items, '/')
    ensures DelimFree(NonEmpty(items), '/') && forall i :: 0 <= i < |NonEmpty(items)| ==> NonEmpty(items)[i] != ""
  {
    if items != [] {
      NonEmptyItems(items[1..]);
      hide Lacks;
    }
  }

  /** The last element goes, with the slash before it or without; when asked for, the slash after it is ignored. */
  lemma LastElementRemoved(parent: string, name: string, post: bool)
    requires Lacks(name, '/')
    ensures name != "" ==>
              RemoveLastPathElement(parent + "/" + name, true, post) == if post then parent else parent + "/"
    ensures RemoveLastPathElement(parent + "/" + name + "/", true, post) == if post then parent else parent + "/"
    ensures RemoveLastPathElement(parent + "/" + name, false, post) == if post then parent else parent + "/"
  {
    var path := parent + ['/'] + name;
    FindLastInJoin(parent, name, '/');
    FindLastInJoin(path, "", '/');
    assert path + ['/'] + "" == path + "/" && (path + "/")[..|path|] == path;
    assert path[..|parent|] == parent && path[..|parent| + 1] == parent + "/";
    hide FindLast;
  }

  // ---------- Round trip ----------

  lemma {:induction false} DescendUps(stack: seq<string>, n: nat, rest: seq<string>)
    requires n <= |stack|
    ensures Descend(stack, Ups(n) + rest) == Descend(stack[..|stack| - n], rest)
  {
    if n == 0 {
      assert Ups(0) + rest == rest && stack[..|stack|] == stack;
    } else {
      var fewer := stack[..|stack| - 1];
      assert (Ups(n) + rest)[1..] == Ups(n - 1) + rest;
      DescendUps(fewer, n - 1, rest);
      assert fewer[..|fewer| - (n - 1)] == stack[..|stack| - n];
    }
  }

  lemma {:induction false} DescendNames(stack: seq<string>, names: seq<string>)
    requires CleanNames(names)
    ensures Descend(stack, names) == stack + names
    decreases |names|
  {
    if names == [] {
      assert stack + names == stack;
    } else {
      DescendNames(stack + [names[0]], names[1..]);
      assert stack + [names[0]] + names[1..] == stack + names;
    }
  }

  lemma DescendRelative(b: seq<string>, t: seq<string>)
    requires b != [] && t != [] && CleanNames(t[Common(b, t)..])
    ensures Descend(b[..|b| - 1], RelativeSegments(b, t)) == if Common(b, t) < |t| then t else t[..|t| - 1]
  {
    hide Descend, CleanNames;
    var base, c := b[..|b| - 1], Common(b, t);
    var n := |base| - c + if c == |t| then 1 else 0;
    DescendUps(base, n, t[c..]);
    DescendNames(base[..|base| - n], t[c..]);
    if c < |t| {
      assert base[..|base| - n] == t[..c] && t[..c] + t[c..] == t;
    } else {
      assert base[..|base| - n] + t[c..] == t[..|t| - 1];
    }
  }

  lemma SplitRelative(b: seq<string>, t: seq<string>)
    requires b != [] && t != [] && CleanNames(t[Common(b, t)..])
    ensures Split(ExtendAll("", RelativeSegments(b, t)), '/') == RelativeSegments(b, t)
  {
    hide Split, Join, ExtendAll, RelativeSegments, Common;
    RelativePathIsJoin(b, t);
    SplitJoin(RelativeSegments(b, t), '/');
  }

  /** Round trip by the other route, whatever the leading slashes: the absolute path of a target's relative path is
      the target, or, when the target is a directory ancestor of the base, the target's parent. */
  lemma AbsoluteRoundTrip(basePath: string, targetPath: string)
    requires targetPath != "" && targetPath[|targetPath| - 1] != '/'
    requires CleanNames(Split(targetPath, '/')[Common(Split(basePath, '/'), Split(targetPath, '/'))..])
    ensures var t := Split(targetPath, '/');
            var items := Split(RelativePath(basePath, targetPath), '/');
            Join(Descend(LinkResolvers.BaseStack(basePath), items), '/')
            == if Common(Split(basePath, '/'), t) < |t| then targetPath else Join(t[..|t| - 1], '/')
  {
    hide Split, Join, Descend, ExtendAll, RelativeSegments, Common, CleanNames;
    var b, t := Split(basePath, '/'), Split(targetPath, '/');
    SplitRelative(b, t);
    DescendRelative(b, t);
    JoinSplit(targetPath, '/');
  }
}
