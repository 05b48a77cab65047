/**
 Splitting text at a delimiter and joining it again (`split` of src/tools.cpp), and the last delimiter of a path.
 */
module PathSegments {
  import opened Sequences

  ghost predicate Lacks(s: string, c: char) {
    forall i :: 0 <= i < |s| ==> s[i] != c
  }

  /** The pieces between delimiters; there is always at least one. */
  function Split(s: string, delim: char): (segments: seq<string>)
    ensures segments != []
  {
    var i := Find(s, delim, 0);
    if i == |s| then [s] else [s[..i]] + Split(s[i + 1..], delim)
  }

  function Join(segments: seq<string>, delim: char): string {
    if segments == [] then "" else if |segments| == 1 then segments[0]
    else segments[0] + [delim] + Join(segments[1..], delim)
  }

  ghost predicate DelimFree(segments: seq<string>, delim: char) {
    forall i :: 0 <= i < |segments| ==> Lacks(segments[i], delim)
  }

  lemma {:induction false} SplitIsDelimFree(s: string, delim: char)
    ensures DelimFree(Split(s, delim), delim)
  {
    var i := Find(s, delim, 0);
    if i < |s| {
      SplitIsDelimFree(s[i + 1..], delim);
    }
  }

  lemma JoinFirst(first: string, rest: seq<string>, delim: char)
    requires rest != []
    ensures Join([first] + rest, delim) == first + [delim] + Join(rest, delim)
  {
    assert ([first] + rest)[1..] == rest;
  }

  /** What precedes and what follows the first delimiter. */
  lemma SplitStep(s: string, delim: char)
    ensures var i := Find(s, delim, 0);
            Split(s, delim) == if i == |s| then [s] else [s[..i]] + Split(s[i + 1..], delim)
  {
    hide Find, Join;
  }

  lemma {:induction false} JoinSplit(s: string, delim: char)
    ensures Join(Split(s, delim), delim) == s
  {
    hide Split, Join;
    var i := Find(s, delim, 0);
    SplitStep(s, delim);
    if i < |s| {
      JoinSplit(s[i + 1..], delim);
      JoinFirst(s[..i], Split(s[i + 1..], delim), delim);
    } else {
      JoinOne(s, delim);
    }
  }

  lemma JoinOne(s: string, delim: char)
    ensures Join([s], delim) == s
  {
  }

  lemma FindFirst(a: string, b: string, delim: char)
    requires Lacks(a, delim) && (b == [] || b[0] == delim)
    ensures Find(a + b, delim, 0) == |a|
  {
    var i := Find(a + b, delim, 0);
    assert forall k :: 0 <= k < |a| ==> (a + b)[k] == a[k];
    assert b != [] ==> (a + b)[|a|] == delim;
  }

  lemma SplitFirst(a: string, s: string, delim: char)
    requires Lacks(a, delim)
    ensures Split(a, delim) == [a]
    ensures Split(a + [delim] + s, delim) == [a] + Split(s, delim)
  {
    FindFirst(a, [], delim);
    assert a + [] == a;
    FindFirst(a, [delim] + s, delim);
    var text := a + [delim] + s;
    assert text == a + ([delim] + s);
    assert text[..|a|] == a && text[|a| + 1..] == s;
  }

  lemma {:induction false} SplitJoin(segments: seq<string>, delim: char)
    requires segments != [] && DelimFree(segments, delim)
    ensures Split(Join(segments, delim), delim) == segments
  {
    if |segments| == 1 {
      SplitFirst(segments[0], "", delim);
    } else {
      SplitFirst(segments[0], Join(segments[1..], delim), delim);
      SplitJoin(segments[1..], delim);
    }
  }

  lemma {:induction false} JoinConcat(a: seq<string>, b: seq<string>)
    requires b != []
    ensures Join(a + b, '/') == if a == [] then Join(b, '/') else Join(a, '/') + ['/'] + Join(b, '/')
  {
    if a == [] {
      assert a + b == b;
    } else {
      var first, rest := a[0], a[1..];
      assert a == [first] + rest && a + b == [first] + (rest + b);
      JoinConcat(rest, b);
      JoinFirst(first, rest + b, '/');
      if rest == [] {
        JoinOne(first, '/');
      } else {
        JoinFirst(first, rest, '/');
        assert first + ['/'] + (Join(rest, '/') + ['/'] + Join(b, '/'))
            == first + ['/'] + Join(rest, '/') + ['/'] + Join(b, '/');
      }
      hide Join;
    }
  }

  /** The last segment of a joined path. */
  lemma {:induction false} JoinAppend(segments: seq<string>, last: string, delim: char)
    ensures Join(segments + [last], delim) == if segments == [] then last else Join(segments, delim) + [delim] + last
  {
    if segments != [] {
      assert (segments + [last])[1..] == segments[1..] + [last];
      JoinAppend(segments[1..], last, delim);
      if |segments| > 1 {
        var head, rest := segments[0] + [delim], Join(segments[1..], delim);
        assert head + (rest + [delim] + last) == head + rest + [delim] + last;
      }
    }
  }

  function FindLastBefore(s: string, c: char, n: nat): (i: int)
    requires n <= |s|
    ensures -1 <= i < n && (forall k :: i < k < n ==> s[k] != c) && (i >= 0 ==> s[i] == c)
  {
    if n == 0 then -1 else if s[n - 1] == c then n - 1 else FindLastBefore(s, c, n - 1)
  }

  /** The position of the last `c`, or -1. */
  function FindLast(s: string, c: char): (i: int)
    ensures -1 <= i < |s| && (forall k :: i < k < |s| ==> s[k] != c) && (i >= 0 ==> s[i] == c)
  {
    FindLastBefore(s, c, |s|)
  }

  lemma FindLastInJoin(a: string, b: string, delim: char)
    requires Lacks(b, delim)
    ensures FindLast(b, delim) == -1
    ensures FindLast(a + [delim] + b, delim) == |a|
  {
    var s := a + [delim] + b;
    var j := FindLast(s, delim);
    assert s[|a|] == delim;
    assert forall k :: 0 <= k < |b| ==> s[|a| + 1 + k] == b[k];
  }

  /** The segments of a path are pushed in order. */
  method SplitPath(str: string, delim: char) returns (result: seq<string>)
    ensures result == Split(str, delim)
  {
    hide Split, Find;
    result := [];
    var start := 0;
    assert str[0..] == str;
    while true
      invariant 0 <= start <= |str|
      invariant Split(str, delim) == result + Split(str[start..], delim)
      decreases |str| - start
    {
      var rest := str[start..];
      var length := Find(rest, delim, 0);
      SplitStep(rest, delim);
      if length == |rest| {
        result := result + [rest];
        return;
      }
      assert rest[length + 1..] == str[start + length + 1..];
      result := result + [rest[..length]];
      start := start + length + 1;
    }
  }
}
