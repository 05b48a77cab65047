/**
 Percent-escapes in links. Section 2.4 of RFC 3986 separates the segments of a path before it decodes them; the resolver
 of src/tools.cpp decodes first. This module says when the order makes no difference.
 */
module RawLinks {
  import opened LinkResolvers
  import opened Options
  import opened PathSegments
  import opened Sequences
  import opened UrlCoding

  function DecodeAll(segments: seq<string>): (decoded: seq<string>)
    ensures |decoded| == |segments|
  {
    if segments == [] then [] else [Decode(segments[0])] + DecodeAll(segments[1..])
  }

  /** As `RemoveDotSegments`, but each segment is decoded only once it is known to be no dot segment. */
  function RemoveRawDotSegments(stack: seq<string>, segments: seq<string>): (r: Option<seq<string>>)
    requires segments != []
    ensures r.Some? ==> r.value != []
    decreases |segments|
  {
    var p, final := segments[0], |segments| == 1;
    if p == "." then if final then Some(stack + [""]) else RemoveRawDotSegments(stack, segments[1..])
    else if p == ".." then
      if stack == [] then None
      else
        var shorter := stack[..|stack| - 1];
        if final then Some(shorter + [""]) else RemoveRawDotSegments(shorter, segments[1..])
    else if final then Some(stack + [Decode(p)])
    else RemoveRawDotSegments(stack + [Decode(p)], segments[1..])
  }

  /** The target that RFC 3986 gives for a relative path as it stands in the link. */
  function RawTarget(path: string, zimPath: string): Resolution {
    ToResolution(RemoveRawDotSegments(BaseStack(zimPath), Split(path, '/')))
  }

  predicate IsDotSegment(p: string) {
    p == "." || p == ".."
  }

  /** Decoding makes no slash. */
  ghost predicate NoHiddenSlash(segments: seq<string>) {
    forall i :: 0 <= i < |segments| ==> Lacks(Decode(segments[i]), '/')
  }

  /** Decoding makes no dot segment. */
  ghost predicate NoHiddenDots(segments: seq<string>) {
    forall i :: 0 <= i < |segments| ==> (IsDotSegment(Decode(segments[i])) ==> IsDotSegment(segments[i]))
  }

  // ---------- Splitting and decoding ----------

  lemma SlashIsNoHexDigit()
    ensures !IsHexDigit('/')
  {
  }

  /** No escape reaches across a slash. */
  lemma {:induction false} DecodeAcrossSlash(a: string, b: string)
    ensures Decode(a + ['/'] + b) == Decode(a) + ['/'] + Decode(b)
    decreases |a|
  {
    hide IsHexDigit, CharFromHex;
    var s := a + ['/'] + b;
    SlashIsNoHexDigit();
    if a == "" {
      assert s == ['/'] + b;
      DecodeLiteral('/', b);
    } else if |a| >= 3 && a[0] == '%' && IsHexDigit(a[1]) && IsHexDigit(a[2]) {
      assert s[3..] == a[3..] + ['/'] + b;
      DecodeAcrossSlash(a[3..], b);
    } else {
      assert s[1..] == a[1..] + ['/'] + b;
      assert s[0] == a[0] && (|a| > 1 ==> s[1] == a[1]) && (|a| > 2 ==> s[2] == a[2]);
      assert |a| == 1 ==> s[1] == '/';
      assert |a| == 2 ==> s[2] == '/';
      DecodeAcrossSlash(a[1..], b);
    }
  }

  lemma {:induction false} DecodeJoin(segments: seq<string>)
    ensures Decode(Join(segments, '/')) == Join(DecodeAll(segments), '/')
  {
    if |segments| > 1 {
      var first, rest := segments[0], segments[1..];
      assert segments == [first] + rest;
      JoinFirst(first, rest, '/');
      DecodeAcrossSlash(first, Join(rest, '/'));
      DecodeJoin(rest);
      JoinFirst(Decode(first), DecodeAll(rest), '/');
      hide Decode, Join;
    } else if |segments| == 1 {
      assert DecodeAll(segments) == [Decode(segments[0])];
    }
  }

  lemma {:induction false} DecodedAt(segments: seq<string>, i: nat)
    requires i < |segments|
    ensures DecodeAll(segments)[i] == Decode(segments[i])
  {
    if i > 0 {
      DecodedAt(segments[1..], i - 1);
    }
  }

  /** Splitting after decoding gives the decoded segments exactly when no segment decodes to text with a slash. */
  lemma SplitDecodedIff(path: string)
    ensures Split(Decode(path), '/') == DecodeAll(Split(path, '/')) <==> NoHiddenSlash(Split(path, '/'))
  {
    var segments := Split(path, '/');
    JoinSplit(path, '/');
    DecodeJoin(segments);
    SplitIsDelimFree(Decode(path), '/');
    hide Decode, Split, Join, DecodeAll;
    forall i | 0 <= i < |segments| ensures DecodeAll(segments)[i] == Decode(segments[i]) {
      DecodedAt(segments, i);
    }
    if NoHiddenSlash(segments) {
      SplitJoin(DecodeAll(segments), '/');
    }
  }

  // ---------- Resolving ----------

  lemma {:induction false} RawDotsRemoved(stack: seq<string>, segments: seq<string>)
    requires segments != [] && NoHiddenDots(segments)
    ensures RemoveRawDotSegments(stack, segments) == RemoveDotSegments(stack, DecodeAll(segments))
    decreases |segments|
  {
    var p, rest := segments[0], segments[1..];
    DotsAreDots();
    assert DecodeAll(segments)[1..] == DecodeAll(rest);
    assert forall i :: 0 <= i < |rest| ==> rest[i] == segments[i + 1];
    hide Decode;
    if rest != [] {
      if p == "." {
        RawDotsRemoved(stack, rest);
      } else if p == ".." {
        if stack != [] {
          RawDotsRemoved(stack[..|stack| - 1], rest);
        }
      } else {
        RawDotsRemoved(stack + [Decode(p)], rest);
      }
    }
  }

  lemma DotsAreDots()
    ensures Decode(".") == "." && Decode("..") == ".."
  {
    assert "."[1..] == "" && ".."[1..] == ".";
  }

  ghost predicate NoDots(segments: seq<string>) {
    forall i :: 0 <= i < |segments| ==> !IsDotSegment(segments[i])
  }

  lemma {:induction false} WithoutDots(stack: seq<string>, segments: seq<string>)
    requires segments != [] && NoDots(segments)
    ensures RemoveDotSegments(stack, segments) == Some(stack + segments)
    ensures RemoveRawDotSegments(stack, segments) == Some(stack + DecodeAll(segments))
    decreases |segments|
  {
    var p, rest := segments[0], segments[1..];
    hide Decode;
    assert segments == [p] + rest && DecodeAll(segments) == [Decode(p)] + DecodeAll(rest);
    assert stack + [p] + rest == stack + segments;
    assert stack + [Decode(p)] + DecodeAll(rest) == stack + DecodeAll(segments);
    if rest == [] {
      assert stack + [p] + rest == stack + [p] && stack + [Decode(p)] + DecodeAll(rest) == stack + [Decode(p)];
    } else {
      assert forall i :: 0 <= i < |rest| ==> rest[i] == segments[i + 1];
      WithoutDots(stack + [p], rest);
      WithoutDots(stack + [Decode(p)], rest);
    }
  }

  lemma {:induction false} SplitBoth(a: string, b: string)
    ensures Split(a + ['/'] + b, '/') == Split(a, '/') + Split(b, '/')
    decreases |a|
  {
    SplitStep(a, '/');
    hide Split;
    var i := Find(a, '/', 0);
    if i == |a| {
      SplitFirst(a, b, '/');
    } else {
      var rest := a[i + 1..];
      assert a == a[..i] + ['/'] + rest;
      SplitBoth(rest, b);
      SplitFirst(a[..i], rest + ['/'] + b, '/');
      assert a[..i] + ['/'] + (rest + ['/'] + b) == a + ['/'] + b;
    }
  }

  /** A dot segment of the link is one of the decoded link. */
  lemma {:induction false} DotsStay(segments: seq<string>)
    requires segments != [] && NoDots(Split(Join(DecodeAll(segments), '/'), '/'))
    ensures NoDots(segments)
  {
    var first, rest := segments[0], segments[1..];
    hide Split, Decode;
    DotsAreDots();
    SplitOfDots();
    assert DecodeAll(segments) == [Decode(first)] + DecodeAll(rest);
    if rest == [] {
      JoinOne(Decode(first), '/');
      assert DecodeAll(segments) == [Decode(first)];
      FirstIsNoDot(first, Split(Decode(first), '/'));
    } else {
      JoinFirst(Decode(first), DecodeAll(rest), '/');
      var a, b := Split(Decode(first), '/'), Split(Join(DecodeAll(rest), '/'), '/');
      SplitBoth(Decode(first), Join(DecodeAll(rest), '/'));
      assert forall i :: 0 <= i < |a| ==> a[i] == (a + b)[i];
      assert forall i :: 0 <= i < |b| ==> b[i] == (a + b)[|a| + i];
      FirstIsNoDot(first, a);
      DotsStay(rest);
      assert forall i :: 0 < i < |segments| ==> segments[i] == rest[i - 1];
    }
  }

  lemma SplitOfDots()
    ensures Split(".", '/') == ["."] && Split("..", '/') == [".."]
  {
    SplitFirst(".", "", '/');
    SplitFirst("..", "", '/');
  }

  lemma FirstIsNoDot(first: string, split: seq<string>)
    requires split == Split(Decode(first), '/') && NoDots(split)
    ensures !IsDotSegment(first)
  {
    hide Split, Decode;
    DotsAreDots();
    SplitOfDots();
    assert IsDotSegment(first) ==> split == [first];
    assert split[0] == split[0];
  }

  /** When the decoded link has no dot segment at all, hidden slashes do no harm. */
  lemma NoDotsSameTarget(path: string, zimPath: string)
    requires NoDots(Split(Decode(path), '/'))
    ensures RfcTarget(Decode(path), zimPath) == RawTarget(path, zimPath)
  {
    var segments, decoded, base := Split(path, '/'), Split(Decode(path), '/'), BaseStack(zimPath);
    hide Split, Decode, Join, BaseStack, DecodeAll, RemoveDotSegments, RemoveRawDotSegments, NoDots;
    JoinSplit(path, '/');
    JoinSplit(Decode(path), '/');
    DecodeJoin(segments);
    DotsStay(segments);
    WithoutDots(base, decoded);
    WithoutDots(base, segments);
    JoinConcat(base, decoded);
    JoinConcat(base, DecodeAll(segments));
  }

  /** When no segment of the link decodes to a dot segment or to text with a slash, or the decoded link has no dot
      segment, the target of the decoded link is that of the link; so the resolver gives the latter, unless a dot
      segment meets an ambiguous stack. */
  lemma ResolverMatchesRawRfc(url: string, zimPath: string)
    requires var path := StripFragmentAndOrSearchComponent(url); path != "" && path[0] != '/'
    requires var path := StripFragmentAndOrSearchComponent(url);
             || (NoHiddenSlash(Split(path, '/')) && NoHiddenDots(Split(path, '/')))
             || NoDots(Split(Decode(path), '/'))
    ensures var path := StripFragmentAndOrSearchComponent(url);
            && RfcTarget(Decode(path), zimPath) == RawTarget(path, zimPath)
            && (Resolve(url, zimPath) == RawTarget(path, zimPath)
                <==> RawTarget(path, zimPath).OutOfBoundsURL? || !Ambiguous(Decode(path), zimPath))
  {
    hide *;
    var path := StripFragmentAndOrSearchComponent(url);
    if NoDots(Split(Decode(path), '/')) {
      NoDotsSameTarget(path, zimPath);
    } else {
      SplitDecodedIff(path);
      RawDotsRemoved(BaseStack(zimPath), Split(path, '/'));
      SameTarget(path, zimPath);
    }
    ResolverMatchesRfc(url, zimPath);
  }

  lemma SameTarget(path: string, zimPath: string)
    requires Split(Decode(path), '/') == DecodeAll(Split(path, '/'))
    requires RemoveRawDotSegments(BaseStack(zimPath), Split(path, '/'))
             == RemoveDotSegments(BaseStack(zimPath), DecodeAll(Split(path, '/')))
    ensures RfcTarget(Decode(path), zimPath) == RawTarget(path, zimPath)
  {
  }

  // ---------- Links that decode to other segments ----------

  /** "x%2F.." is one segment, whose name is "x/.."; decoded first it is two, and leads to the entry's directory. */
  lemma HiddenDotsAreResolved()
    ensures RawTarget("x%2F..", "a") == Resolved("x/..")
    ensures Resolve("x%2F..", "a") == Resolved("") && !Ambiguous(Decode("x%2F.."), "a")
  {
    hide *;
    PlainSplits();
    HiddenRaw();
    HiddenDecoded();
    ResolverMatchesRfc("x%2F..", "a");
  }

  /** In "a%2Fb/../c" the ".." removes the one segment "a/b"; decoded first it removes only "b". */
  lemma HiddenSlashSurvives()
    ensures RawTarget("a%2Fb/../c", "a") == Resolved("c")
    ensures Resolve("a%2Fb/../c", "a") == Resolved("a/c") && !Ambiguous(Decode("a%2Fb/../c"), "a")
  {
    hide *;
    SlashSplits();
    SlashRaw();
    SlashDecoded();
    ResolverMatchesRfc("a%2Fb/../c", "a");
  }

  lemma SlashSplits()
    ensures Split("a%2Fb/../c", '/') == ["a%2Fb", "..", "c"] && Split("a/b/../c", '/') == ["a", "b", "..", "c"]
    ensures BaseStack("a") == [] && StripFragmentAndOrSearchComponent("a%2Fb/../c") == "a%2Fb/../c"
    ensures Decode("a%2Fb/../c") == "a/b/../c" && Decode("a%2Fb") == "a/b" && Decode("c") == "c"
  {
    hide Split, Decode, StripFragmentAndOrSearchComponent, PathComponent;
    SplitFirst("c", "", '/');
    SplitFirst("..", "c", '/');
    SplitFirst("a%2Fb", "../c", '/');
    SplitFirst("b", "../c", '/');
    SplitFirst("a", "b/../c", '/');
    SplitFirst("a", "", '/');
    assert ".." + ['/'] + "c" == "../c" && "a%2Fb" + ['/'] + "../c" == "a%2Fb/../c";
    assert "b" + ['/'] + "../c" == "b/../c" && "a" + ['/'] + "b/../c" == "a/b/../c";
    NothingStripped("a%2Fb/../c");
    SlashDecodes();
  }

  lemma SlashDecodes()
    ensures Decode("a%2Fb/../c") == "a/b/../c" && Decode("a%2Fb") == "a/b" && Decode("c") == "c"
  {
    hide Decode;
    DotsAreDots();
    PlainDecode("c");
    PlainDecode("b");
    DecodeEscape('2', 'F', "b");
    assert ['%', '2', 'F'] + "b" == "%2Fb";
    DecodeLiteral('a', "%2Fb");
    assert ['a'] + "%2Fb" == "a%2Fb";
    DecodeAcrossSlash("..", "c");
    DecodeAcrossSlash("a%2Fb", "../c");
    assert ".." + ['/'] + "c" == "../c" && "a%2Fb" + ['/'] + "../c" == "a%2Fb/../c";
    assert "a/b" + ['/'] + "../c" == "a/b/../c";
  }

  lemma PlainDecode(s: string)
    requires |s| == 1 && s[0] != '%'
    ensures Decode(s) == s
  {
    assert s == [s[0]] + "" && Decode("") == "";
    DecodeLiteral(s[0], "");
  }

  lemma SlashRaw()
    requires Split("a%2Fb/../c", '/') == ["a%2Fb", "..", "c"] && BaseStack("a") == []
    requires Decode("a%2Fb") == "a/b" && Decode("c") == "c"
    ensures RawTarget("a%2Fb/../c", "a") == Resolved("c")
  {
    hide Split, Decode, BaseStack;
    var stack: seq<string> := [];
    var one, segments := stack + ["a/b"], ["a%2Fb", "..", "c"];
    assert segments[1..] == ["..", "c"] && ["..", "c"][1..] == ["c"] && one[..0] == stack;
    assert RemoveRawDotSegments(stack, ["c"]) == Some(stack + ["c"]);
    assert RemoveRawDotSegments(one, ["..", "c"]) == Some(stack + ["c"]);
    assert RemoveRawDotSegments(stack, segments) == Some(stack + ["c"]);
    assert Join(["c"], '/') == "c";
  }

  lemma SlashDecoded()
    requires Split("a/b/../c", '/') == ["a", "b", "..", "c"] && BaseStack("a") == []
    ensures RfcTarget("a/b/../c", "a") == Resolved("a/c") && !Ambiguous("a/b/../c", "a")
  {
    hide Split, BaseStack;
    var stack: seq<string> := [];
    var one, two, segments := ["a"], ["a", "b"], ["a", "b", "..", "c"];
    assert segments[1..] == ["b", "..", "c"] && ["b", "..", "c"][1..] == ["..", "c"] && ["..", "c"][1..] == ["c"];
    assert stack + ["a"] == one && one + ["b"] == two && two[..1] == one && one + ["c"] == ["a", "c"];
    assert RemoveDotSegments(one, ["c"]) == Some(one + ["c"]);
    assert RemoveDotSegments(two, ["..", "c"]) == Some(one + ["c"]);
    assert RemoveDotSegments(one, ["b", "..", "c"]) == Some(one + ["c"]);
    assert RemoveDotSegments(stack, segments) == Some(one + ["c"]);
    JoinOne("c", '/');
    assert Join(["a", "c"], '/') == "a/c" by {
      assert ["a", "c"][1..] == ["c"];
    }
    assert !MeetsAmbiguity(one, false, ["c"]);
    assert !MeetsAmbiguity(two, true, ["..", "c"]);
    assert !MeetsAmbiguity(one, true, ["b", "..", "c"]);
  }

  lemma PlainSplits()
    ensures Split("x%2F..", '/') == ["x%2F.."] && Split("x/..", '/') == ["x", ".."] && BaseStack("a") == []
    ensures StripFragmentAndOrSearchComponent("x%2F..") == "x%2F.." && Decode("x%2F..") == "x/.."
  {
    hide Split, Decode, StripFragmentAndOrSearchComponent, PathComponent;
    SplitFirst("x%2F..", "", '/');
    SplitFirst("a", "", '/');
    SplitFirst("..", "", '/');
    SplitFirst("x", "..", '/');
    assert "x" + ['/'] + ".." == "x/..";
    assert ["x"] + [".."] == ["x", ".."];
    NothingStripped("x%2F..");
    HiddenDecode();
  }

  lemma NothingStripped(url: string)
    requires forall i :: 0 <= i < |url| ==> !EndsPath(url[i])
    ensures StripFragmentAndOrSearchComponent(url) == url
  {
  }

  lemma HiddenDecode()
    ensures Decode("x%2F..") == "x/.."
  {
    hide Decode;
    DotsAreDots();
    DecodeEscape('2', 'F', "..");
    assert ['%', '2', 'F'] + ".." == "%2F..";
    DecodeLiteral('x', "%2F..");
    assert ['x'] + "%2F.." == "x%2F..";
  }

  lemma HiddenRaw()
    requires Split("x%2F..", '/') == ["x%2F.."] && BaseStack("a") == [] && Decode("x%2F..") == "x/.."
    ensures RawTarget("x%2F..", "a") == Resolved("x/..")
  {
    hide Split, Decode, BaseStack;
    assert RemoveRawDotSegments([], ["x%2F.."]) == Some([] + ["x/.."]);
    assert Join(["x/.."], '/') == "x/..";
  }

  lemma HiddenDecoded()
    requires Split("x/..", '/') == ["x", ".."] && BaseStack("a") == []
    ensures RfcTarget("x/..", "a") == Resolved("") && !Ambiguous("x/..", "a")
  {
    hide Split, BaseStack;
    var stack: seq<string> := [];
    var one, segments := stack + ["x"], ["x", ".."];
    assert segments[1..] == [".."] && one[..0] == stack;
    assert RemoveDotSegments(one, [".."]) == Some(stack + [""]);
    assert RemoveDotSegments(stack, segments) == Some(stack + [""]);
    assert Join([""], '/') == "";
    assert !MeetsAmbiguity(one, true, [".."]) by {
      assert one[..0] == [];
    }
    assert !MeetsAmbiguity(stack, false, segments);
  }
}
