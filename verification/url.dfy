/** `make_url(baseurl, *args, **GET)`: every argument is joined onto the URL
    with exactly one `/`, and `?` plus the encoded query is appended only
    when there are GET parameters. `urljoin` is modelled on the inputs where
    its reference resolution (section 5.2 of RFC 3986) amounts to appending a
    relative path to a base that ends in `/`: an http(s) base URL and
    argument paths without query, fragment, scheme or dot segments.
    `urlencode` is a parameter. */
module Url {

  import Strings

  /** The two schemes the modelled base URLs carry. */
  const Http: string := "http://"
  const Https: string := "https://"

  predicate EndsWithSlash(s: string) {
    |s| > 0 && s[|s| - 1] == '/'
  }

  predicate StartsWith(s: string, prefix: string) {
    |prefix| <= |s| && s[..|prefix|] == prefix
  }

  /** A path segment `.` or `..` starts at position `i`. */
  predicate DotSegmentAt(s: string, i: int) {
    0 <= i < |s| && s[i] == '.' && (i == 0 || s[i - 1] == '/')
    && (i + 1 == |s| || s[i + 1] == '/' || (s[i + 1] == '.' && (i + 2 == |s| || s[i + 2] == '/')))
  }

  /** An empty path segment starts at position `i`: two `/` in a row. */
  predicate EmptySegmentAt(s: string, i: int) {
    0 <= i < |s| - 1 && s[i] == '/' && s[i + 1] == '/'
  }

  /** A character that `urlsplit` and `urljoin` pass through untouched: an
      ASCII letter or digit, or one of the marks section 3.3 of RFC 3986
      lets stand unescaped in a path segment, leaving out `:` and `;`.
      Whitespace, control characters, brackets, `?`, `#` and `/` are not
      among them. */
  predicate SegmentChar(c: char) {
    ('a' <= c <= 'z') || ('A' <= c <= 'Z') || ('0' <= c <= '9')
    || c == '-' || c == '.' || c == '_' || c == '~' || c == '!' || c == '$' || c == '&'
    || c == '\'' || c == '(' || c == ')' || c == '*' || c == '+' || c == ',' || c == '='
    || c == '@' || c == '%'
  }

  /** Path text that reference resolution leaves as it is: segment
      characters and `/` only (so no query, fragment, parameters or
      scheme), and no `.`, `..` or empty segment. */
  predicate Plain(s: string) {
    forall i :: 0 <= i < |s| ==> PlainAt(s, i)
  }

  /** Position `i` of `s` holds a segment character or `/`, and starts
      neither a `.` or `..` segment nor an empty one. */
  predicate PlainAt(s: string, i: int) {
    0 <= i < |s| && (SegmentChar(s[i]) || s[i] == '/') && !DotSegmentAt(s, i) && !EmptySegmentAt(s, i)
  }

  /** The length of the scheme part of an http(s) URL. */
  function SchemeLength(s: string): nat
  {
    if StartsWith(s, Https) then |Https| else |Http|
  }

  /** A base URL `urljoin` resolves against by appending: http or https,
      then a non-empty host and a path, both plain. */
  predicate Base(s: string) {
    (StartsWith(s, Http) || StartsWith(s, Https))
    && SchemeLength(s) < |s| && s[SchemeLength(s)] != '/'
    && Plain(s[SchemeLength(s)..])
  }

  /** The argument with one leading `/` removed, if it has one. */
  function Strip(arg: string): (rel: string)
    ensures |arg| > 0 && arg[0] == '/' ==> arg == "/" + rel
    ensures !(|arg| > 0 && arg[0] == '/') ==> rel == arg
  {
    if |arg| > 0 && arg[0] == '/' then arg[1..] else arg
  }

  /** An argument `urljoin` appends after stripping: plain, and not
      absolute after one leading `/` is stripped. */
  predicate Segment(arg: string) {
    var rel := Strip(arg);
    Plain(rel) && (|rel| == 0 || rel[0] != '/')
  }

  /** The text put between the URL and the next argument: nothing when the
      URL already ends in `/`, a `/` otherwise. */
  function Joiner(url: string): string
  {
    if EndsWithSlash(url) then "" else "/"
  }

  /** Appending a path that does not start with `/` to plain text ending in
      `/` keeps it plain. */
  lemma PlainAppend(a: string, b: string)
    requires Plain(a) && EndsWithSlash(a) && Plain(b) && (|b| == 0 || b[0] != '/')
    ensures Plain(a + b)
  {
    var s := a + b;
    forall i | 0 <= i < |s|
      ensures PlainAt(s, i)
    {
      if i < |a| {
        assert PlainAt(a, i);
        assert s[i] == a[i];
        assert s[i] == '.' ==> i < |a| - 1;
        assert DotSegmentAt(s, i) ==> DotSegmentAt(a, i);
        assert EmptySegmentAt(s, i) ==> i + 1 < |a| && EmptySegmentAt(a, i);
      } else {
        assert PlainAt(b, i - |a|);
        assert s[i] == b[i - |a|];
        assert DotSegmentAt(s, i) ==> DotSegmentAt(b, i - |a|);
        assert EmptySegmentAt(s, i) ==> EmptySegmentAt(b, i - |a|);
      }
    }
  }

  /** Appending a `/` to plain text that does not end in one keeps it
      plain. */
  lemma PlainSlash(a: string)
    requires Plain(a) && |a| > 0 && !EndsWithSlash(a)
    ensures Plain(a + "/")
  {
    var s := a + "/";
    forall i | 0 <= i < |s|
      ensures PlainAt(s, i)
    {
      if i < |a| {
        assert PlainAt(a, i);
        assert s[i] == a[i];
        assert DotSegmentAt(s, i) ==> DotSegmentAt(a, i);
        assert EmptySegmentAt(s, i) ==> i + 1 < |a| && EmptySegmentAt(a, i);
      }
    }
  }

  /** A base URL followed by text keeps its scheme and host start, and the
      text lands at the end of its path. */
  lemma BaseAppend(a: string, b: string)
    requires Base(a)
    ensures StartsWith(a + b, Http) == StartsWith(a, Http)
    ensures StartsWith(a + b, Https) == StartsWith(a, Https)
    ensures SchemeLength(a + b) == SchemeLength(a)
    ensures (a + b)[SchemeLength(a)] == a[SchemeLength(a)]
    ensures (a + b)[SchemeLength(a)..] == a[SchemeLength(a)..] + b
    ensures (a + b)[..|a|] == a
  {
    assert (a + b)[..|Http|] == a[..|Http|];
    assert (a + b)[..|Https|] == a[..|Https|];
  }

  /** A base URL ending in `/` followed by a plain relative path is a base
      URL. */
  lemma BaseAppendPath(a: string, b: string)
    requires Base(a) && EndsWithSlash(a) && Plain(b) && (|b| == 0 || b[0] != '/')
    ensures Base(a + b)
  {
    BaseAppend(a, b);
    PlainAppend(a[SchemeLength(a)..], b);
  }

  /** A base URL not ending in `/` followed by one is a base URL. */
  lemma BaseSlash(a: string)
    requires Base(a) && !EndsWithSlash(a)
    ensures Base(a + "/")
  {
    BaseAppend(a, "/");
    PlainSlash(a[SchemeLength(a)..]);
  }

  /** A base URL holds no `?`: the scheme has none, and the host and path
      are plain. */
  lemma BaseHasNoQuery(s: string)
    requires Base(s)
    ensures '?' !in s
  {
    var k := SchemeLength(s);
    var rest := s[k..];
    forall i | 0 <= i < |s|
      ensures s[i] != '?'
    {
      if i < k {
        if StartsWith(s, Https) {
          assert s[i] == Https[i];
        } else {
          assert s[i] == Http[i];
        }
      } else {
        assert PlainAt(rest, i - k);
        assert s[i] == rest[i - k];
      }
    }
  }

  /** `urljoin(base, relative)` for a base ending in `/` and a relative
      path: the path is appended. */
  function UrlJoin(base: string, relative: string): (r: string)
    requires Base(base) && EndsWithSlash(base)
    requires Plain(relative) && (|relative| == 0 || relative[0] != '/')
    ensures Base(r) && StartsWith(r, base)
  {
    BaseAppendPath(base, relative);
    BaseAppend(base, relative);
    base + relative
  }

  /** The URL with the joiner added is a base URL ending in `/`. */
  lemma JoinerKeepsBase(url: string)
    requires Base(url)
    ensures Base(url + Joiner(url)) && EndsWithSlash(url + Joiner(url))
  {
    if EndsWithSlash(url) {
      assert url + Joiner(url) == url;
    } else {
      BaseSlash(url);
    }
  }

  /** One step of the loop: the URL with `arg` joined on. Every segment of
      the argument is kept, after exactly one `/` from the URL. */
  function JoinOne(url: string, arg: string): (r: string)
    requires Base(url) && Segment(arg)
    ensures Base(r) && StartsWith(r, url)
    ensures r == WithSlash(url) + Strip(arg)
  {
    var base := url + Joiner(url);
    JoinerKeepsBase(url);
    BaseAppend(url, Joiner(url));
    var r := UrlJoin(base, Strip(arg));
    assert r[..|url|] == base[..|url|];
    r
  }

  /** The loop over `args`. */
  function JoinAll(url: string, args: seq<string>): (r: string)
    requires Base(url)
    requires forall i :: 0 <= i < |args| ==> Segment(args[i])
    ensures Base(r) && StartsWith(r, url)
    decreases |args|
  {
    if |args| == 0 then url
    else
      var next := JoinOne(url, args[0]);
      var r := JoinAll(next, args[1..]);
      assert r[..|url|] == next[..|url|];
      r
  }

  /** `make_url(baseurl, *args, **GET)`, with `encode` standing for
      `urlencode` and the GET parameters in keyword order. */
  function MakeUrl(base: string, args: seq<string>, get: seq<(string, string)>,
                   encode: seq<(string, string)> -> string): (r: string)
    requires Base(base)
    requires forall i :: 0 <= i < |args| ==> Segment(args[i])
    ensures StartsWith(r, base)
    ensures '?' in r <==> |get| > 0
    ensures |get| > 0 ==> var path := JoinAll(base, args);
                          r == path + "?" + encode(get) && '?' !in path
    ensures |get| == 0 ==> r == JoinAll(base, args)
  {
    var path := JoinAll(base, args);
    var r := if |get| > 0 then path + "?" + encode(get) else path;
    BaseHasNoQuery(path);
    assert r[..|base|] == path[..|base|];
    assert |get| > 0 ==> r[|path|] == '?';
    r
  }

  /** `url` with a `/` appended unless it already ends in one. */
  function WithSlash(url: string): (r: string)
    ensures EndsWithSlash(r)
  {
    url + Joiner(url)
  }

  /** Whether an argument is a single non-empty segment once its leading
      `/` is stripped. */
  predicate OneSegment(arg: string) {
    var rel := Strip(arg);
    |rel| > 0 && '/' !in rel
  }

  /** Whether an argument leaves a URL that does not end in `/`: it is
      non-empty and does not end in `/` once its leading `/` is stripped.
      It may hold several segments. */
  predicate Appended(arg: string) {
    var rel := Strip(arg);
    |rel| > 0 && !EndsWithSlash(rel)
  }

  /** A single segment leaves a URL that does not end in `/`. */
  lemma OneSegmentAppended(arg: string)
    requires OneSegment(arg)
    ensures Appended(arg)
  {
    var rel := Strip(arg);
    assert rel[|rel| - 1] in rel;
  }

  /** The stripped arguments, in order. */
  function Stripped(args: seq<string>): (rels: seq<string>)
    ensures |rels| == |args|
    ensures forall i :: 0 <= i < |args| ==> rels[i] == Strip(args[i])
  {
    seq(|args|, i requires 0 <= i < |args| => Strip(args[i]))
  }

  /** One step with an argument that does not end in `/` appends it after
      exactly one `/`, leaving a URL that does not end in `/`. */
  lemma JoinOneSegment(url: string, arg: string)
    requires Base(url) && Segment(arg) && Appended(arg)
    ensures JoinOne(url, arg) == WithSlash(url) + Strip(arg)
    ensures !EndsWithSlash(JoinOne(url, arg))
    ensures WithSlash(JoinOne(url, arg)) == WithSlash(url) + Strip(arg) + "/"
  {
    var rel := Strip(arg);
    var next := JoinOne(url, arg);
    assert next[|next| - 1] == rel[|rel| - 1];
  }

  /** Stripping a list is stripping its first argument and the rest. */
  lemma StrippedCons(args: seq<string>)
    requires |args| > 0
    ensures Stripped(args) == [Strip(args[0])] + Stripped(args[1..])
  {
  }

  /** A `/` added by hand is the one the join would add. */
  lemma WithSlashTwice(url: string)
    requires !EndsWithSlash(url)
    ensures WithSlash(url + "/") == WithSlash(url)
  {
    assert url + "/" + "" == url + "/";
  }

  /** Splitting off the first segment of a join. */
  lemma JoinCons(parts: seq<string>)
    requires |parts| > 1
    ensures Strings.Join(parts, '/') == parts[0] + "/" + Strings.Join(parts[1..], '/')
  {
  }

  /** The loop's first step, taken out of the loop. */
  lemma JoinAllStep(url: string, args: seq<string>)
    requires Base(url)
    requires |args| > 0
    requires forall i :: 0 <= i < |args| ==> Segment(args[i])
    ensures JoinAll(url, args) == JoinAll(JoinOne(url, args[0]), args[1..])
  {
  }

  /** Regrouping the joined text after one more segment. */
  lemma JoinRegroup(url: string, rel: string, rels: seq<string>)
    requires |rels| > 0
    ensures url + rel + "/" + Strings.Join(rels, '/') == url + Strings.Join([rel] + rels, '/')
  {
    var parts := [rel] + rels;
    assert parts[0] == rel && parts[1..] == rels;
    JoinCons(parts);
    assert url + rel + "/" + Strings.Join(rels, '/') == url + (rel + "/" + Strings.Join(rels, '/'));
  }

  /** With arguments that do not end in `/` (single segments or several),
      the loop keeps every argument and puts exactly one `/` between the URL
      and the first argument and between consecutive arguments, whether or
      not the URL already ends in `/` and whether or not the arguments start
      with one. */
  lemma {:induction false} JoinAllOneSlash(url: string, args: seq<string>)
    requires Base(url)
    requires |args| > 0
    requires forall i :: 0 <= i < |args| ==> Segment(args[i]) && Appended(args[i])
    ensures JoinAll(url, args) == WithSlash(url) + Strings.Join(Stripped(args), '/')
    decreases |args|
  {
    var next := JoinOne(url, args[0]);
    var rel := Strip(args[0]);
    JoinOneSegment(url, args[0]);
    JoinAllStep(url, args);
    if |args| > 1 {
      JoinAllOneSlash(next, args[1..]);
      StrippedCons(args);
      JoinRegroup(WithSlash(url), rel, Stripped(args[1..]));
    } else {
      assert Stripped(args) == [rel];
    }
  }

  /** The text after the base URL and its `/` splits back into the
      argument segments: every segment is joined with exactly one `/`. */
  lemma SegmentsRecovered(base: string, args: seq<string>, get: seq<(string, string)>,
                          encode: seq<(string, string)> -> string)
    requires Base(base)
    requires |args| > 0
    requires forall i :: 0 <= i < |args| ==> Segment(args[i]) && OneSegment(args[i])
    ensures var path := JoinAll(base, args);
            && StartsWith(path, WithSlash(base))
            && Strings.Split(path[|WithSlash(base)|..], '/') == Stripped(args)
            && (|get| == 0 ==> MakeUrl(base, args, get, encode) == path)
  {
    forall i | 0 <= i < |args|
      ensures Appended(args[i])
    {
      OneSegmentAppended(args[i]);
    }
    JoinAllOneSlash(base, args);
    var path := JoinAll(base, args);
    var prefix := WithSlash(base);
    assert path[..|prefix|] == prefix;
    assert path[|prefix|..] == Strings.Join(Stripped(args), '/');
    Strings.SplitJoin(Stripped(args), '/');
  }

  /** A base URL given with a trailing `/` gives the same URL as without. */
  lemma TrailingSlashIgnored(base: string, args: seq<string>)
    requires Base(base) && !EndsWithSlash(base)
    requires Base(base + "/")
    requires |args| > 0
    requires forall i :: 0 <= i < |args| ==> Segment(args[i]) && Appended(args[i])
    ensures JoinAll(base + "/", args) == JoinAll(base, args)
  {
    WithSlashTwice(base);
    SameJoin(base + "/", base, args);
  }

  /** Two base URLs that agree once the joiner is added give the same
      URL. */
  lemma SameJoin(u: string, v: string, args: seq<string>)
    requires Base(u) && Base(v) && WithSlash(u) == WithSlash(v)
    requires |args| > 0
    requires forall i :: 0 <= i < |args| ==> Segment(args[i]) && Appended(args[i])
    ensures JoinAll(u, args) == JoinAll(v, args)
  {
    JoinAllOneSlash(u, args);
    JoinAllOneSlash(v, args);
  }

  /** The documented example, a base URL without a trailing `/`, the single
      segment `test` and one or more GET parameters, gives the base, `/test`,
      `?` and the encoded query, here for any such base and query
      encoding. */
  lemma OneSegmentWithQuery(base: string, get: seq<(string, string)>,
                            encode: seq<(string, string)> -> string)
    requires Base(base) && !EndsWithSlash(base)
    requires |get| > 0
    ensures Segment("test") && MakeUrl(base, ["test"], get, encode) == base + "/test?" + encode(get)
  {
    var test := "test";
    assert Word(test) by {
      forall i | 0 <= i < |test| ensures 'a' <= test[i] <= 'z' {
      }
    }
    WordSegment(test);
    OneSegmentAppended(test);
    JoinAllOneSlash(base, [test]);
    assert Stripped([test]) == [test];
    assert Strings.Join([test], '/') == test;
  }

  /** A non-empty run of lower-case ASCII letters. */
  predicate Word(w: string) {
    |w| > 0 && forall i :: 0 <= i < |w| ==> 'a' <= w[i] <= 'z'
  }

  /** A word is a single plain segment. */
  lemma WordSegment(w: string)
    requires Word(w)
    ensures Segment(w) && OneSegment(w) && Strip(w) == w
  {
    forall i | 0 <= i < |w| ensures PlainAt(w, i) {
      assert 'a' <= w[i] <= 'z';
    }
  }

  /** Two words with a `/` between them form one plain argument of two
      segments. */
  lemma WordsSegment(a: string, b: string)
    requires Word(a) && Word(b)
    ensures Segment(a + "/" + b) && Appended(a + "/" + b) && Strip(a + "/" + b) == a + "/" + b
  {
    var s := a + "/" + b;
    forall i | 0 <= i < |s| ensures PlainAt(s, i) {
      if i < |a| {
        assert s[i] == a[i];
      } else if i == |a| {
        assert s[i + 1] == b[0];
      } else {
        assert s[i] == b[i - |a| - 1];
      }
    }
    assert s[0] == a[0];
    assert s[|s| - 1] == b[|b| - 1];
  }

  /** The documented example with the segments `neuron` and `fields`, for
      any two words: one argument holding both segments gives the same URL
      as the two given separately, namely the base, `/`, the first word, `/`
      and the second. */
  lemma TwoSegmentsInOneArgument(base: string, a: string, b: string, get: seq<(string, string)>,
                                 encode: seq<(string, string)> -> string)
    requires Base(base) && Word(a) && Word(b)
    ensures Segment(a + "/" + b) && Segment(a) && Segment(b)
    ensures MakeUrl(base, [a + "/" + b], get, encode) == MakeUrl(base, [a, b], get, encode)
    ensures MakeUrl(base, [a, b], [], encode) == WithSlash(base) + (a + "/" + b)
  {
    JoinOneArgument(base, a, b);
    JoinTwoArguments(base, a, b);
    SameJoinSameUrl(base, [a + "/" + b], [a, b], get, encode);
  }

  /** Argument lists with the same joined path give the same URL. */
  lemma SameJoinSameUrl(base: string, u: seq<string>, v: seq<string>, get: seq<(string, string)>,
                        encode: seq<(string, string)> -> string)
    requires Base(base)
    requires forall i :: 0 <= i < |u| ==> Segment(u[i])
    requires forall i :: 0 <= i < |v| ==> Segment(v[i])
    requires JoinAll(base, u) == JoinAll(base, v)
    ensures MakeUrl(base, u, get, encode) == MakeUrl(base, v, get, encode)
  {
  }

  /** The words joined as one argument `a/b`. */
  lemma JoinOneArgument(base: string, a: string, b: string)
    requires Base(base) && Word(a) && Word(b)
    ensures Segment(a + "/" + b)
    ensures JoinAll(base, [a + "/" + b]) == WithSlash(base) + (a + "/" + b)
  {
    WordsSegment(a, b);
    JoinAllOneSlash(base, [a + "/" + b]);
    assert Stripped([a + "/" + b]) == [a + "/" + b];
    assert Strings.Join([a + "/" + b], '/') == a + "/" + b;
  }

  /** The words joined as two arguments `a` and `b`. */
  lemma JoinTwoArguments(base: string, a: string, b: string)
    requires Base(base) && Word(a) && Word(b)
    ensures Segment(a) && Segment(b)
    ensures JoinAll(base, [a, b]) == WithSlash(base) + (a + "/" + b)
  {
    WordSegment(a);
    WordSegment(b);
    OneSegmentAppended(a);
    OneSegmentAppended(b);
    JoinAllOneSlash(base, [a, b]);
    assert Stripped([a, b]) == [a, b];
    assert Strings.Join([a, b], '/') == a + "/" + b;
  }

  /** Inputs on which `urljoin` does more than append lie outside the
      model: an empty segment (which `urljoin` drops), leading or embedded
      whitespace (which `urlsplit` strips or deletes) and an unbalanced
      bracket in the host (which `urlsplit` rejects). */
  lemma NonAppendingInputsExcluded()
    ensures !Segment("a//b") && !Segment(" a") && !Segment("a\tb")
    ensures !Base("http://h/x//") && !Base("http://[h")
  {
    assert !PlainAt("a//b", 1);
    assert !PlainAt(" a", 0);
    assert !PlainAt("a\tb", 1);
    assert "http://h/x//"[|Http|..] == "h/x//";
    assert !PlainAt("h/x//", 3);
    assert "http://[h"[|Http|..] == "[h";
    assert !PlainAt("[h", 0);
  }
}
