/**
  Mount paths (internal/api/storage.go): the reserved-path test, which compares text, and
  where a path leads once empty and `.` components are dropped and `..` is followed.
*/
module MountPaths {
  import opened Prelude

  function TrimRight(p: string): (r: string)
    ensures r <= p && (r == "" || r[|r| - 1] != '/')
    ensures forall i :: |r| <= i < |p| ==> p[i] == '/'
  {
    if p != "" && p[|p| - 1] == '/' then TrimRight(p[..|p| - 1]) else p
  }

  /** The components between slashes. */
  function Split(s: string): (cs: seq<string>)
    ensures |cs| > 0
    decreases |s|
  {
    var k := IndexOf(s, '/');
    if k == |s| then [s] else [s[..k]] + Split(s[k + 1..])
  }

  const RESERVED: seq<seq<string>> := [["", "tmp"], ["", "home", "ray"]]

  /** The root, or a path whose first components are those of a reserved directory. */
  predicate Reserved(p: string) {
    var cs := Split(TrimRight(p));
    cs == [""] || exists i :: 0 <= i < |RESERVED| && RESERVED[i] <= cs
  }

  /** p is r, or goes on from r with a slash. */
  predicate Extends(p: string, r: string) {
    r <= p && (|p| == |r| || p[|r|] == '/')
  }

  lemma ExtendsIs(p: string, r: string)
    ensures Extends(p, r) <==> p == r || r + "/" <= p
  {
    if r <= p && |p| > |r| && p[|r|] == '/' {
      assert p == r + "/" + p[|r| + 1..];
    }
  }

  lemma SplitHead(s: string)
    ensures Split(s)[0] == s[..IndexOf(s, '/')]
    ensures |Split(s)| == 1 <==> IndexOf(s, '/') == |s|
    ensures IndexOf(s, '/') < |s| ==> Split(s)[1..] == Split(s[IndexOf(s, '/') + 1..])
  {
  }

  lemma FirstComponent(p: string, r: string)
    requires IndexOf(r, '/') == |r|
    ensures Extends(p, r) <==> p[..IndexOf(p, '/')] == r
  {
    if Extends(p, r) {
      assert p[..|r|] == r;
      if |r| < |p| {
        FirstAt(p, '/', |r|);
      }
    }
  }

  lemma HeadsAgree(p: string, r: string)
    requires IndexOf(r, '/') < |r| && Extends(p, r)
    ensures IndexOf(p, '/') == IndexOf(r, '/') < |p| && p[..IndexOf(p, '/')] == r[..IndexOf(r, '/')]
  {
    var k := IndexOf(r, '/');
    assert p[..k] == r[..k] && p[k] == '/';
    FirstAt(p, '/', k);
  }

  lemma StripHead(p: string, r: string, k: nat)
    requires k < |p| && k < |r| && p[..k + 1] == r[..k + 1]
    ensures Extends(p, r) <==> Extends(p[k + 1..], r[k + 1..])
  {
    assert p == p[..k + 1] + p[k + 1..] && r == r[..k + 1] + r[k + 1..];
    if Extends(p[k + 1..], r[k + 1..]) {
      assert p[..|r|] == r;
    }
  }

  lemma PrefixHeads(p: string, r: string)
    requires IndexOf(r, '/') < |r| && Split(r) <= Split(p)
    ensures IndexOf(p, '/') == IndexOf(r, '/') < |p| && p[..IndexOf(p, '/')] == r[..IndexOf(r, '/')]
  {
    SplitHead(p);
    SplitHead(r);
    hide Split;
    assert Split(p)[0] == Split(r)[0];
    assert |r[..IndexOf(r, '/')]| == |p[..IndexOf(p, '/')]|;
  }

  /** Extending a path as text is extending it component by component. */
  lemma {:induction false} ExtendsComponentwise(p: string, r: string)
    ensures Extends(p, r) <==> Split(r) <= Split(p)
    decreases |r|
  {
    var k := IndexOf(r, '/');
    SplitHead(p);
    SplitHead(r);
    hide Split, Extends;
    if k == |r| {
      FirstComponent(p, r);
      assert r[..k] == r && Split(r) == [r];
    } else if Extends(p, r) || Split(r) <= Split(p) {
      if Extends(p, r) {
        HeadsAgree(p, r);
      } else {
        PrefixHeads(p, r);
      }
      assert p[..k + 1] == r[..k + 1];
      StripHead(p, r, k);
      ExtendsComponentwise(p[k + 1..], r[k + 1..]);
      Prefixes(Split(r), Split(p));
    }
  }

  lemma Prefixes(a: seq<string>, b: seq<string>)
    requires a != [] && b != [] && a[0] == b[0]
    ensures a <= b <==> a[1..] <= b[1..]
  {
    assert a == [a[0]] + a[1..] && b == [b[0]] + b[1..];
  }

  method MountPathReserved(path: string) returns (reserved: bool)
    ensures reserved == Reserved(path)
  {
    hide Split, TrimRight, Extends;
    var prefixes := ["/", "/tmp", "/home/ray"];
    var p := TrimRight(path);
    SplitLiterals();
    if p == "" {
      return true;
    }
    NotRoot(p);
    ReservedIs(path);
    for i := 0 to |prefixes|
      invariant forall j :: 1 <= j < i ==> !Extends(p, prefixes[j])
    {
      var r := prefixes[i];
      if r == "/" {
        continue;
      }
      ExtendsIs(p, r);
      if p == r || r + "/" <= p {
        return true;
      }
    }
    assert prefixes[1] == "/tmp" && prefixes[2] == "/home/ray";
    return false;
  }

  lemma ReservedIs(path: string)
    ensures var p := TrimRight(path);
      Reserved(path) <==> Split(p) == [""] || Extends(p, "/tmp") || Extends(p, "/home/ray")
  {
    hide Split, TrimRight, Extends;
    var p := TrimRight(path);
    SplitLiterals();
    ExtendsComponentwise(p, "/tmp");
    ExtendsComponentwise(p, "/home/ray");
    assert Reserved(path) <==> Split(p) == [""] || RESERVED[0] <= Split(p) || RESERVED[1] <= Split(p);
  }

  lemma SplitAt(a: string, rest: string)
    requires '/' !in a
    ensures Split(a) == [a]
    ensures Split(a + "/" + rest) == [a] + Split(rest)
  {
    var s := a + "/" + rest;
    FirstAt(s, '/', |a|);
    assert s[..|a|] == a && s[|a| + 1..] == rest;
  }

  lemma SplitLiterals()
    ensures Split("") == [""] && Split("/tmp") == ["", "tmp"] && Split("/home/ray") == ["", "home", "ray"]
  {
    hide Split, IndexOf;
    SplitAt("", "tmp");
    SplitAt("tmp", "");
    SplitAt("home", "ray");
    SplitAt("ray", "");
    SplitAt("", "home/ray");
    assert "" + "/" + "tmp" == "/tmp" && "home" + "/" + "ray" == "home/ray" && "" + "/" + "home/ray" == "/home/ray";
  }

  lemma NotRoot(p: string)
    requires p != ""
    ensures Split(p) != [""]
  {
    SplitHead(p);
  }

  /** Absolute, and as text neither a reserved directory nor under one. */
  predicate Mountable(p: string) {
    p != "" && p[0] == '/' && !Reserved(p)
  }

  // ------------------------------------------------------- where a path leads

  /** A component that names a directory. */
  predicate Real(c: string) {
    c != "" && c != "." && c != ".."
  }

  /** The directory reached by following the components from the root. */
  function Walk(cs: seq<string>): seq<string> {
    if cs == [] then []
    else
      var at, c := Walk(cs[..|cs| - 1]), cs[|cs| - 1];
      if c == ".." then (if at == [] then [] else at[..|at| - 1])
      else if Real(c) then at + [c]
      else at
  }

  function Place(p: string): seq<string> {
    Walk(Split(p))
  }

  const DIRECTORIES: seq<seq<string>> := [["tmp"], ["home", "ray"]]

  /** Is the root, or is or lies under a reserved directory. */
  predicate Takes(at: seq<string>) {
    at == [] || exists i :: 0 <= i < |DIRECTORIES| && DIRECTORIES[i] <= at
  }

  /** Is or lies above one. */
  predicate Hides(at: seq<string>) {
    exists i :: 0 <= i < |DIRECTORIES| && at <= DIRECTORIES[i]
  }

  /** A mount there replaces a reserved directory, or part of one, by the entry's files. */
  predicate Clashes(p: string) {
    Takes(Place(p)) || Hides(Place(p))
  }

  function Render(cs: seq<string>): string {
    if cs == [] then "" else "/" + cs[0] + Render(cs[1..])
  }

  /** The shortest way to write where p leads. */
  function Cleaned(p: string): string {
    if Place(p) == [] then "/" else Render(Place(p))
  }

  predicate Names(cs: seq<string>) {
    forall i :: 0 <= i < |cs| ==> Real(cs[i]) && '/' !in cs[i]
  }

  lemma {:induction false} SplitNoSlash(s: string)
    ensures forall i :: 0 <= i < |Split(s)| ==> '/' !in Split(s)[i]
    decreases |s|
  {
    var k := IndexOf(s, '/');
    SplitHead(s);
    if k < |s| {
      SplitNoSlash(s[k + 1..]);
      hide Split;
      forall i | 0 <= i < |Split(s)|
        ensures '/' !in Split(s)[i]
      {
        if i > 0 {
          assert Split(s)[i] == Split(s)[1..][i - 1];
        }
      }
    }
  }

  lemma {:induction false} WalkNames(cs: seq<string>)
    requires forall i :: 0 <= i < |cs| ==> '/' !in cs[i]
    ensures Names(Walk(cs))
  {
    if cs != [] {
      WalkNames(cs[..|cs| - 1]);
    }
  }

  lemma PlaceNames(p: string)
    ensures Names(Place(p))
  {
    SplitNoSlash(p);
    WalkNames(Split(p));
  }

  lemma RenderCons(cs: seq<string>)
    requires cs != []
    ensures Render(cs) == "" + "/" + (cs[0] + Render(cs[1..]))
  {
    assert "/" + cs[0] + Render(cs[1..]) == "/" + (cs[0] + Render(cs[1..]));
  }

  lemma {:induction false} SplitTail(cs: seq<string>)
    requires Names(cs) && cs != []
    ensures Split(cs[0] + Render(cs[1..])) == cs
  {
    hide Split, Render;
    var c, rest := cs[0], cs[1..];
    assert cs == [c] + rest;
    if rest == [] {
      RenderNone();
      SplitAt(c, "");
      assert c + "" == c;
    } else {
      SplitTail(rest);
      RenderCons(rest);
      var x := rest[0] + Render(rest[1..]);
      SplitAt(c, x);
      assert c + ("" + "/" + x) == c + "/" + x;
    }
  }

  lemma SplitRender(cs: seq<string>)
    requires Names(cs) && cs != []
    ensures Split(Render(cs)) == [""] + cs
  {
    hide Split, Render;
    SplitTail(cs);
    RenderCons(cs);
    SplitAt("", cs[0] + Render(cs[1..]));
  }

  lemma {:induction false} RenderEnds(cs: seq<string>)
    requires Names(cs) && cs != []
    ensures Render(cs) != "" && Render(cs)[0] == '/' && Render(cs)[|Render(cs)| - 1] != '/'
  {
    if |cs| == 1 {
      assert Render(cs) == "/" + cs[0];
      assert cs[0][|cs[0]| - 1] in cs[0];
    } else {
      RenderEnds(cs[1..]);
    }
  }

  lemma TrimNone(t: string)
    requires t == "" || t[|t| - 1] != '/'
    ensures TrimRight(t) == t
  {
  }

  lemma RenderReserved(at: seq<string>)
    requires Names(at) && at != []
    ensures Reserved(Render(at)) <==> Takes(at)
  {
    hide Split, TrimRight, Render;
    SplitRender(at);
    RenderEnds(at);
    TrimNone(Render(at));
    var cs := [""] + at;
    assert RESERVED[0] == [""] + DIRECTORIES[0] && RESERVED[1] == [""] + DIRECTORIES[1];
    forall i | 0 <= i < 2
      ensures RESERVED[i] <= cs <==> DIRECTORIES[i] <= at
    {
      Prefixes(RESERVED[i], cs);
      assert cs[1..] == at && RESERVED[i][1..] == DIRECTORIES[i];
    }
  }

  /** Names with a slash or two before them. */
  lemma SplitNamed(c: string)
    requires Real(c) && '/' !in c
    ensures Split("/" + c) == ["", c] && TrimRight("/" + c) == "/" + c
    ensures Split("//" + c) == ["", "", c] && TrimRight("//" + c) == "//" + c
  {
    hide Split, TrimRight;
    assert c[|c| - 1] in c;
    TrimNone("/" + c);
    TrimNone("//" + c);
    SplitAt(c, "");
    SplitAt("", c);
    SplitAt("", "/" + c);
    assert "" + "/" + c == "/" + c && "" + "/" + ("/" + c) == "//" + c;
  }

  lemma WalkNamed(c: string)
    requires Real(c)
    ensures Walk(["", c]) == [c] && Walk(["", "", c]) == [c]
  {
    assert ["", "", c][..2] == ["", ""] && ["", c][..1] == [""] && ["", ""][..1] == [""] && [""][..0] == [];
  }

  /** What the reserved-path test says of a cleaned path. */
  lemma CleanedReserved(p: string)
    ensures Reserved(Cleaned(p)) <==> Takes(Place(p))
    ensures Cleaned(p) == "/home" <==> Place(p) == ["home"]
  {
    var at := Place(p);
    PlaceNames(p);
    SplitLiterals();
    hide Place, Split, Names;
    if at == [] {
      assert TrimRight("/") == "" && "/"[..0] == "";
    } else {
      RenderReserved(at);
      SplitRender(at);
      SplitNamed("home");
      assert "/" + "home" == "/home";
      hide TrimRight, Reserved, Takes, Render;
      assert Render(at) == "/home" ==> at == ([""] + at)[1..] == ["", "home"][1..] == ["home"];
      if at == ["home"] {
        RenderCons(at);
        RenderNone();
        assert at[1..] == [] && "home" + "" == "home";
      }
    }
  }

  lemma RenderNone()
    ensures Render([]) == ""
  {
  }

  lemma HidesIs(at: seq<string>)
    ensures Takes(at) || Hides(at) <==> Takes(at) || at == ["home"]
  {
    assert DIRECTORIES[0] == ["tmp"] && DIRECTORIES[1] == ["home", "ray"];
    if Hides(at) && !Takes(at) {
      assert at != DIRECTORIES[0] && at != DIRECTORIES[1];
      assert |at| >= 1;
    }
    assert ["home"] <= DIRECTORIES[1];
  }

  /**
    The exact condition: a mount clashes with a reserved directory iff the test, put to the cleaned path,
    refuses it, or the cleaned path is `/home`.
  */
  lemma CleanedDecides(p: string)
    ensures Clashes(p) <==> Reserved(Cleaned(p)) || Cleaned(p) == "/home"
  {
    hide Place, Takes, Hides, Reserved, Cleaned;
    CleanedReserved(p);
    HidesIs(Place(p));
  }

  // --------------------------------------------------------------- plain paths

  /** Absolute, with no empty, `.` or `..` component before the trailing slashes. */
  predicate Plain(p: string) {
    var cs := Split(TrimRight(p));
    cs[0] == "" && forall i :: 1 <= i < |cs| ==> Real(cs[i])
  }

  lemma {:induction false} SplitSlash(s: string)
    ensures Split(s + "/") == Split(s) + [""]
    decreases |s|
  {
    hide Split, IndexOf;
    var k := IndexOf(s, '/');
    if k == |s| {
      assert '/' !in s;
      SplitAt(s, "");
      SplitAt("", "");
      assert s + "/" + "" == s + "/";
    } else {
      var head, rest := s[..k], s[k + 1..];
      assert '/' !in head;
      SplitSlash(rest);
      SplitAt(head, rest);
      SplitAt(head, rest + "/");
      assert s == head + "/" + rest && s + "/" == head + "/" + (rest + "/");
    }
  }

  lemma {:induction false} PlaceTrim(p: string)
    ensures Place(TrimRight(p)) == Place(p)
  {
    if p != "" && p[|p| - 1] == '/' {
      var q := p[..|p| - 1];
      PlaceTrim(q);
      SplitSlash(q);
      assert q + "/" == p;
      var cs := Split(q) + [""];
      assert cs[..|cs| - 1] == Split(q);
    }
  }

  lemma {:induction false} WalkPlain(cs: seq<string>)
    requires cs != [] && cs[0] == "" && forall i :: 1 <= i < |cs| ==> Real(cs[i])
    ensures Walk(cs) == cs[1..]
  {
    if |cs| > 1 {
      var init := cs[..|cs| - 1];
      WalkPlain(init);
      assert cs[1..] == init[1..] + [cs[|cs| - 1]];
    } else {
      assert cs[..0] == [];
    }
  }

  lemma {:induction false} RenderSplit(s: string)
    ensures Split(s)[0] + Render(Split(s)[1..]) == s
    decreases |s|
  {
    var k := IndexOf(s, '/');
    SplitHead(s);
    RenderNone();
    hide Split, IndexOf, Render;
    if k == |s| {
      assert Split(s)[1..] == [] && s[..k] + "" == s;
    } else {
      var rest := s[k + 1..];
      RenderSplit(rest);
      RenderCons(Split(rest));
      assert s == s[..k] + ("" + "/" + rest);
    }
  }

  lemma PlainCleaned(p: string)
    requires Plain(p) && TrimRight(p) != ""
    ensures Cleaned(p) == TrimRight(p)
  {
    var t := TrimRight(p);
    var cs := Split(t);
    PlaceTrim(p);
    WalkPlain(cs);
    RenderSplit(t);
    RenderNone();
    hide Split, TrimRight, Render;
    assert cs[0] + Render(cs[1..]) == Render(cs[1..]);
  }

  lemma {:induction false} TrimTwice(p: string)
    ensures TrimRight(TrimRight(p)) == TrimRight(p)
  {
    if p != "" && p[|p| - 1] == '/' {
      TrimTwice(p[..|p| - 1]);
    }
  }

  /** Of the plainly written paths the test lets through, exactly `/home` clashes. */
  lemma PlainClashesIff(p: string)
    requires Mountable(p) && Plain(p)
    ensures Clashes(p) <==> TrimRight(p) == "/home"
  {
    assert TrimRight(p) != "" by {
      SplitLiterals();
    }
    CleanedDecides(p);
    PlainCleaned(p);
    TrimTwice(p);
    hide Clashes, Cleaned, Plain, Split, TrimRight;
  }

  /** Cleaned paths tell places apart. */
  lemma CleanedSamePlace(a: string, b: string)
    ensures Place(a) == Place(b) <==> Cleaned(a) == Cleaned(b)
  {
    PlaceNames(a);
    PlaceNames(b);
    hide Place;
    if Place(a) != [] {
      SplitRender(Place(a));
      RenderEnds(Place(a));
    }
    if Place(b) != [] {
      SplitRender(Place(b));
      RenderEnds(Place(b));
    }
    hide Split, Render;
    if Cleaned(a) == Cleaned(b) && Place(a) != [] && Place(b) != [] {
      assert ([""] + Place(a))[1..] == Place(a) && ([""] + Place(b))[1..] == Place(b);
    }
  }

  /** Among plainly written mount paths, the text without trailing slashes is the place. */
  lemma PlainSamePlace(a: string, b: string)
    requires Mountable(a) && Plain(a) && Mountable(b) && Plain(b)
    ensures Place(a) == Place(b) <==> TrimRight(a) == TrimRight(b)
  {
    assert TrimRight(a) != "" && TrimRight(b) != "" by {
      SplitLiterals();
    }
    CleanedSamePlace(a, b);
    PlainCleaned(a);
    PlainCleaned(b);
  }

  // --------------------------------------------------------- what gets through

  /** The test looks at the second component of the text. */
  lemma NotReserved(p: string)
    requires p != "" && p[0] == '/' && TrimRight(p) == p
    requires |Split(p)| >= 2 && Split(p)[1] != "tmp" && (|Split(p)| == 2 || Split(p)[1] != "home")
    ensures Mountable(p)
  {
    hide Split, TrimRight;
    assert RESERVED[0] == ["", "tmp"] && RESERVED[1] == ["", "home", "ray"];
  }

  /** Paths the test lets through: the scratch directory itself, and the parent of Ray's home. */
  lemma ReservedGetsThrough()
    ensures Mountable("//tmp") && Takes(Place("//tmp"))
    ensures Mountable("/home") && Hides(Place("/home"))
  {
    hide Split, TrimRight, Walk, Mountable;
    SplitNamed("tmp");
    SplitNamed("home");
    WalkNamed("tmp");
    WalkNamed("home");
    assert "//" + "tmp" == "//tmp" && "/" + "home" == "/home";
    NotReserved("//tmp");
    NotReserved("/home");
    assert DIRECTORIES[0] <= ["tmp"] && ["home"] <= DIRECTORIES[1];
  }

  /** Two texts for one directory, both let through and told apart by text. */
  lemma Aliases()
    ensures Mountable("/data") && Mountable("//data")
    ensures TrimRight("/data") != TrimRight("//data") && Place("/data") == Place("//data")
  {
    hide Split, TrimRight, Walk, Mountable;
    SplitNamed("data");
    WalkNamed("data");
    assert "/" + "data" == "/data" && "//" + "data" == "//data";
    NotReserved("/data");
    NotReserved("//data");
  }
}
