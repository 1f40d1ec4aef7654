/**
  Package names and pinned requirements (internal/api/runtimeenv.go): the PEP 503
  normalizer, the pinned-requirement pattern, and the name a requirement is
  checked against the denylist under. Case folding is ASCII.
*/
module PackageNames {
  import opened Prelude

  // ------------------------------------------------------------- characters

  function Lower(c: char): char {
    if 'A' <= c <= 'Z' then c - 'A' + 'a' else c
  }

  function ToLower(s: string): (r: string)
    ensures |r| == |s| && forall i :: 0 <= i < |s| ==> r[i] == Lower(s[i])
  {
    seq(|s|, i requires 0 <= i < |s| => Lower(s[i]))
  }

  /** The same letter, in one case or the other: ASCII keeps the two 32 apart. */
  predicate SameLetter(c: char, d: char) {
    || c == d
    || ('A' <= c <= 'Z' && d as int == c as int + 32)
    || ('A' <= d <= 'Z' && c as int == d as int + 32)
  }

  lemma FoldIff(a: string, b: string)
    ensures ToLower(a) == ToLower(b) <==> |a| == |b| && forall i :: 0 <= i < |a| ==> SameLetter(a[i], b[i])
  {
    if ToLower(a) == ToLower(b) {
      assert |a| == |ToLower(a)| == |b|;
      forall i | 0 <= i < |a|
        ensures SameLetter(a[i], b[i])
      {
        assert ToLower(a)[i] == ToLower(b)[i];
      }
    }
  }

  predicate Alnum(c: char) {
    'a' <= c <= 'z' || 'A' <= c <= 'Z' || '0' <= c <= '9'
  }

  predicate Sep(c: char) {
    c == '-' || c == '_' || c == '.'
  }

  predicate EndsWithSep(s: string) {
    s != [] && Sep(s[|s| - 1])
  }

  // -------------------------------------------------------------- reference

  predicate Word(w: string) {
    w != [] && forall i :: 0 <= i < |w| ==> !Sep(w[i])
  }

  predicate AllWords(ws: seq<string>) {
    forall i :: 0 <= i < |ws| ==> Word(ws[i])
  }

  /** The runs of non-separators, in order. */
  function Words(s: string): (ws: seq<string>)
    ensures s != [] && !EndsWithSep(s) ==> ws != []
    ensures AllWords(ws)
  {
    if s == [] then []
    else
      var p, c := s[..|s| - 1], s[|s| - 1];
      var ws := Words(p);
      if Sep(c) then ws
      else if p == [] || EndsWithSep(p) then ws + [[c]]
      else ws[..|ws| - 1] + [ws[|ws| - 1] + [c]]
  }

  lemma WordsSnoc(s: string, c: char)
    ensures Words(s + [c]) ==
      if Sep(c) then Words(s)
      else if s == [] || EndsWithSep(s) then Words(s) + [[c]]
      else Words(s)[..|Words(s)| - 1] + [Words(s)[|Words(s)| - 1] + [c]]
  {
    assert (s + [c])[..|s|] == s;
  }

  function Dashed(ws: seq<string>): string {
    if ws == [] then ""
    else if |ws| == 1 then ws[0]
    else Dashed(ws[..|ws| - 1]) + "-" + ws[|ws| - 1]
  }

  /** PEP 503's own rule: each run of separators becomes one dash. */
  function Collapse(s: string): string {
    if s == [] then ""
    else
      var p, c := s[..|s| - 1], s[|s| - 1];
      if !Sep(c) then Collapse(p) + [c]
      else if EndsWithSep(p) then Collapse(p)
      else Collapse(p) + "-"
  }

  function Pep503(name: string): string {
    Collapse(ToLower(name))
  }

  /** What normalizePackageName computes: the lower-cased words, joined by single dashes. */
  function Normalize(name: string): string {
    Dashed(Words(ToLower(name)))
  }

  // ------------------------------------------------------------- the method

  lemma DashedExtend(ws: seq<string>, c: char)
    requires ws != []
    ensures Dashed(ws[..|ws| - 1] + [ws[|ws| - 1] + [c]]) == Dashed(ws) + [c]
  {
    var ext := ws[..|ws| - 1] + [ws[|ws| - 1] + [c]];
    assert ext[..|ext| - 1] == ws[..|ws| - 1];
  }

  lemma DashedSnoc(ws: seq<string>, w: string)
    ensures Dashed(ws + [w]) == if ws == [] then w else Dashed(ws) + "-" + w
  {
    assert (ws + [w])[..|ws|] == ws;
  }

  lemma {:induction false} DashedEnd(ws: seq<string>)
    requires ws != [] && AllWords(ws)
    ensures Dashed(ws) != [] && !EndsWithSep(Dashed(ws))
  {
    var last := ws[|ws| - 1];
    assert Word(last);
    assert Dashed(ws)[|Dashed(ws)| - 1] == last[|last| - 1];
  }

  /** The loop's output after reading `s`: the words so far, and a dash if a word came before a separator. */
  function Pending(s: string): string {
    Dashed(Words(s)) + if EndsWithSep(s) && Words(s) != [] then "-" else ""
  }

  lemma PendingStep(s: string, c: char)
    ensures Pending(s + [c]) ==
      if Sep(c) then (if !EndsWithSep(s) && Pending(s) != "" then Pending(s) + "-" else Pending(s))
      else Pending(s) + [c]
  {
    var ws := Words(s);
    assert s == [] ==> ws == [];
    hide Words;
    WordsSnoc(s, c);
    if ws != [] {
      DashedEnd(ws);
    }
    if !Sep(c) {
      if s == [] || EndsWithSep(s) {
        DashedSnoc(ws, [c]);
      } else {
        DashedExtend(ws, c);
      }
    }
  }

  lemma PendingTrim(s: string)
    ensures var b := Pending(s);
      Dashed(Words(s)) == if b != [] && b[|b| - 1] == '-' then b[..|b| - 1] else b
  {
    if Words(s) != [] {
      DashedEnd(Words(s));
    }
  }

  lemma EndsAfter(s: string, c: char)
    ensures EndsWithSep(s + [c]) == Sep(c)
  {
  }

  lemma NothingPends()
    ensures Pending("") == "" && !EndsWithSep("") && Collapse("") == ""
  {
  }

  /** The loop over the lower-cased name. */
  method JoinWords(s: string) returns (b: string)
    ensures b == Pending(s)
  {
    hide *;
    NothingPends();
    b := "";
    var dash := false;
    assert s[..0] == "";
    for i := 0 to |s|
      invariant dash == EndsWithSep(s[..i]) && b == Pending(s[..i])
    {
      var c := s[i];
      PendingStep(s[..i], c);
      EndsAfter(s[..i], c);
      assert s[..i + 1] == s[..i] + [c];
      if Sep(c) {
        if !dash && |b| > 0 {
          b := b + "-";
        }
        dash := true;
        continue;
      }
      dash := false;
      b := b + [c];
    }
    assert s[..|s|] == s;
  }

  method NormalizePackageName(name: string) returns (r: string)
    ensures r == Normalize(name)
  {
    hide Words, Dashed, Pending;
    var b := JoinWords(ToLower(name));
    PendingTrim(ToLower(name));
    r := if |b| > 0 && b[|b| - 1] == '-' then b[..|b| - 1] else b;
  }

  // ------------------------------------------------------------- properties

  predicate Lowered(s: string) {
    forall i :: 0 <= i < |s| ==> Lower(s[i]) == s[i]
  }

  /** No capitals, underscores or dots, and dashes only singly and inside. */
  predicate NormalForm(s: string) {
    && (forall i :: 0 <= i < |s| ==> !('A' <= s[i] <= 'Z') && s[i] != '_' && s[i] != '.')
    && (forall i :: 0 < i < |s| ==> !(s[i - 1] == '-' && s[i] == '-'))
    && (s != [] ==> s[0] != '-' && s[|s| - 1] != '-')
  }

  lemma JoinNormal(a: string, w: string)
    requires NormalForm(a) && a != [] && Word(w) && Lowered(w)
    ensures NormalForm(a + "-" + w)
  {
    var s := a + "-" + w;
    assert forall i :: 0 <= i < |a| ==> s[i] == a[i];
    assert s[|a|] == '-' && forall i :: |a| < i < |s| ==> s[i] == w[i - |a| - 1];
  }

  lemma {:induction false} DashedNormal(ws: seq<string>)
    requires AllWords(ws) && forall i :: 0 <= i < |ws| ==> Lowered(ws[i])
    ensures NormalForm(Dashed(ws))
  {
    if |ws| == 1 {
      assert Word(ws[0]);
    } else if ws != [] {
      var head, last := ws[..|ws| - 1], ws[|ws| - 1];
      assert AllWords(head) && Word(last);
      DashedNormal(head);
      DashedEnd(head);
      JoinNormal(Dashed(head), last);
    }
  }

  lemma WordsJoin(head: seq<string>, last: string)
    requires Words(Dashed(head)) == head && Word(last) && Words("") == []
    ensures Words(Dashed(head + [last])) == head + [last]
  {
    hide Words, Dashed, Word;
    DashedSnoc(head, last);
    if head == [] {
      WordsAppend("", last);
      assert "" + last == last;
    } else {
      WordsSnoc(Dashed(head), '-');
      WordsAppend(Dashed(head) + "-", last);
    }
  }

  lemma {:induction false} WordsOfDashed(ws: seq<string>)
    requires AllWords(ws)
    ensures Words(Dashed(ws)) == ws
  {
    assert Words("") == [] && Dashed([]) == "";
    hide Words, Dashed, Word;
    if ws != [] {
      var head, last := ws[..|ws| - 1], ws[|ws| - 1];
      assert ws == head + [last];
      WordsOfDashed(head);
      WordsJoin(head, last);
    }
  }

  lemma {:induction false} WordsAppend(a: string, w: string)
    requires Word(w) && (a == [] || EndsWithSep(a))
    ensures Words(a + w) == Words(a) + [w]
    decreases |w|
  {
    hide Words;
    var v, c := w[..|w| - 1], w[|w| - 1];
    assert a + v + [c] == a + w;
    WordsSnoc(a + v, c);
    if v == [] {
      assert a + v == a && w == [c];
    } else {
      WordsAppend(a, v);
      var ws := Words(a + v);
      assert ws[..|ws| - 1] == Words(a) && ws[|ws| - 1] == v && v + [c] == w;
    }
  }

  lemma LowerIdempotent(s: string)
    requires Lowered(s)
    ensures ToLower(s) == s
  {}

  lemma {:induction false} WordsLowered(s: string)
    requires Lowered(s)
    ensures forall i :: 0 <= i < |Words(s)| ==> Lowered(Words(s)[i])
  {
    if s != [] {
      WordsLowered(s[..|s| - 1]);
    }
  }

  /** The result is in normal form, and normalizing is idempotent. */
  lemma NormalizeNormal(name: string)
    ensures NormalForm(Normalize(name))
    ensures Normalize(Normalize(name)) == Normalize(name)
  {
    var ws := Words(ToLower(name));
    WordsLowered(ToLower(name));
    DashedNormal(ws);
    LowerIdempotent(Dashed(ws));
    WordsOfDashed(ws);
  }

  /** Reading one more character keeps the words of a collapsed copy in step. */
  lemma SameWordsStep(p: string, q: string, c: char)
    requires Words(p) == Words(q) && EndsWithSep(p) == EndsWithSep(q) && (p == [] <==> q == [])
    ensures !Sep(c) ==> Words(p + [c]) == Words(q + [c])
    ensures Sep(c) ==> Words(p + [c]) == Words(q) == Words(q + "-")
  {
    hide Words;
    WordsSnoc(p, c);
    WordsSnoc(q, c);
    WordsSnoc(q, '-');
  }

  lemma {:induction false} CollapseKeepsWords(s: string)
    ensures Words(Collapse(s)) == Words(s)
    ensures EndsWithSep(Collapse(s)) == EndsWithSep(s) && (Collapse(s) == [] <==> s == [])
  {
    hide Words;
    if s != [] {
      var p, c := s[..|s| - 1], s[|s| - 1];
      assert s == p + [c];
      CollapseKeepsWords(p);
      SameWordsStep(p, Collapse(p), c);
    }
  }

  /** PEP 503-equivalent spellings normalize alike, so they meet the same denylist verdict. */
  lemma NormalizeRespectsPep503(a: string, b: string)
    requires Pep503(a) == Pep503(b)
    ensures Normalize(a) == Normalize(b)
  {
    CollapseKeepsWords(ToLower(a));
    CollapseKeepsWords(ToLower(b));
  }

  /** Without the dash that opens it and the dash that ends it, if it has them. */
  function TrimDashes(s: string): string {
    var t := if s != [] && s[0] == '-' then s[1..] else s;
    if t != [] && t[|t| - 1] == '-' then t[..|t| - 1] else t
  }

  function Lead(s: string): string {
    if s != [] && Sep(s[0]) then "-" else ""
  }

  lemma CollapseSnoc(s: string, c: char)
    ensures Collapse(s + [c]) ==
      if !Sep(c) then Collapse(s) + [c] else if EndsWithSep(s) then Collapse(s) else Collapse(s) + "-"
  {
    assert (s + [c])[..|s|] == s;
  }

  lemma {:induction false} CollapseIsPending(s: string)
    ensures Collapse(s) == Lead(s) + Pending(s)
    ensures s != [] && !EndsWithSep(s) ==> Pending(s) != ""
  {
    NothingPends();
    hide Pending, Collapse;
    if s != [] {
      var p, c := s[..|s| - 1], s[|s| - 1];
      assert s == p + [c];
      CollapseIsPending(p);
      CollapseSnoc(p, c);
      PendingStep(p, c);
      EndsAfter(p, c);
      if p == [] {
        assert Lead(p) == "" && !EndsWithSep(p);
      } else {
        assert Lead(s) == Lead(p);
      }
    }
  }

  lemma {:induction false} DashedStart(ws: seq<string>)
    requires ws != [] && AllWords(ws)
    ensures Dashed(ws) != [] && !Sep(Dashed(ws)[0])
  {
    if |ws| == 1 {
      assert Word(ws[0]);
    } else {
      var head := ws[..|ws| - 1];
      assert AllWords(head);
      DashedStart(head);
    }
  }

  /** Normalizing is PEP 503's rule without the dashes at the edges. */
  lemma NormalizeIsTrimmedPep503(name: string)
    ensures Normalize(name) == TrimDashes(Pep503(name))
  {
    var s := ToLower(name);
    CollapseIsPending(s);
    PendingTrim(s);
    if Words(s) != [] {
      DashedStart(Words(s));
    }
    hide Words, Collapse, Dashed;
    assert Pending(s) != "" ==> Pending(s)[0] != '-';
    assert (Lead(s) + Pending(s))[|Lead(s)|..] == Pending(s);
  }

  /** So exactly the names PEP 503 identifies, edge separators apart, meet the same denylist verdict. */
  lemma NormalizeIff(a: string, b: string)
    ensures Normalize(a) == Normalize(b) <==> TrimDashes(Pep503(a)) == TrimDashes(Pep503(b))
  {
    NormalizeIsTrimmedPep503(a);
    NormalizeIsTrimmedPep503(b);
  }

  lemma {:induction false} CollapseFixes(s: string)
    requires forall i :: 0 <= i < |s| ==> s[i] != '_' && s[i] != '.'
    requires forall i :: 0 < i < |s| ==> !(s[i - 1] == '-' && s[i] == '-')
    ensures Collapse(s) == s
  {
    if s != [] {
      var p := s[..|s| - 1];
      assert forall i :: 0 <= i < |p| ==> p[i] == s[i];
      CollapseFixes(p);
      assert s == p + [s[|s| - 1]];
    }
  }

  /** A name already in normal form is left alone: no other character is a separator or is folded. */
  lemma NormalIsFixed(s: string)
    requires NormalForm(s)
    ensures Normalize(s) == s
  {
    assert ToLower(s) == s;
    CollapseFixes(s);
    NormalizeIsTrimmedPep503(s);
  }

  lemma {:induction false} NonEmptyWords(s: string)
    requires s != [] && !Sep(s[0])
    ensures Words(s) != []
  {
    if |s| > 1 {
      NonEmptyWords(s[..|s| - 1]);
    }
  }

  // ---------------------------------------------------------- pinned entries

  predicate All(s: string, extra: string) {
    forall i :: 0 <= i < |s| ==> Alnum(s[i]) || s[i] in extra
  }

  predicate PinName(s: string) {
    s != [] && Alnum(s[0]) && Alnum(s[|s| - 1]) && All(s, "._-")
  }

  predicate PinExtras(s: string) {
    s == "" || (|s| >= 3 && s[0] == '[' && s[|s| - 1] == ']' && All(s[1..|s| - 1], "_,.-"))
  }

  predicate PinVersion(s: string) {
    s != [] && Alnum(s[0]) && All(s, ".!+_-")
  }

  /** pinnedPackageRe, as a grammar: name[extras]==version. */
  ghost predicate PinnedForm(s: string) {
    exists name, extras, version ::
      PinName(name) && PinExtras(extras) && PinVersion(version) && s == name + extras + "==" + version
  }

  /** A left-to-right recognizer for it. */
  predicate IsPinned(s: string) {
    var e := IndexOf(s, '=');
    && e + 1 < |s| && s[e + 1] == '='
    && PinVersion(s[e + 2..])
    && var b := IndexOf(s[..e], '[');
       PinName(s[..b]) && PinExtras(s[b..e])
  }

  /** Where the recognizer cuts a pinned form. */
  lemma FormSplits(name: string, extras: string, version: string)
    requires PinName(name) && PinExtras(extras) && PinVersion(version)
    ensures var s := name + extras + "==" + version;
      IndexOf(s, '=') == |name| + |extras| && IndexOf(s[..|name| + |extras|], '[') == |name|
  {
    var s := name + extras + "==" + version;
    var e := |name| + |extras|;
    assert forall j :: 0 <= j < |name| ==> s[j] == name[j];
    assert forall j :: |name| <= j < e ==> s[j] == extras[j - |name|];
    forall j | 0 <= j < e
      ensures s[j] != '='
    {
      if |name| < j < e - 1 {
        assert extras[1..|extras| - 1][j - |name| - 1] == s[j];
      }
    }
    FirstAt(s, '=', e);
    if extras == "" {
      NotIn(s[..e], '[');
    } else {
      FirstAt(s[..e], '[', |name|);
    }
  }

  lemma RecognizesForm(name: string, extras: string, version: string)
    requires PinName(name) && PinExtras(extras) && PinVersion(version)
    ensures IsPinned(name + extras + "==" + version)
  {
    var s := name + extras + "==" + version;
    var e := |name| + |extras|;
    FormSplits(name, extras, version);
    hide IndexOf;
    assert s[e + 2..] == version;
    assert s[|name|..e] == extras && s[..|name|] == name;
  }

  lemma PinnedIff(s: string)
    ensures IsPinned(s) <==> PinnedForm(s)
  {
    if IsPinned(s) {
      var e := IndexOf(s, '=');
      var b := IndexOf(s[..e], '[');
      assert s == s[..b] + s[b..e] + "==" + s[e + 2..];
    }
    if PinnedForm(s) {
      var name, extras, version :|
        PinName(name) && PinExtras(extras) && PinVersion(version) && s == name + extras + "==" + version;
      RecognizesForm(name, extras, version);
    }
  }

  // ----------------------------------------------------- the requirement name

  predicate Space(c: char) {
    c == ' ' || '\t' <= c <= '\r'
  }

  function TrimSpace(s: string): string {
    if s == [] then ""
    else if Space(s[0]) then TrimSpace(s[1..])
    else if Space(s[|s| - 1]) then TrimSpace(s[..|s| - 1])
    else s
  }

  predicate HasUrl(s: string) {
    exists i :: 0 <= i <= |s| - 3 && s[i] == ':' && s[i + 1] == '/' && s[i + 2] == '/'
  }

  /** Everything before the first of `[=<>!~;@`, space or tab. */
  function Cut(s: string): string {
    if s == [] || s[0] in "[=<>!~;@ \t" then "" else [s[0]] + Cut(s[1..])
  }

  /** "" when the entry names no package at all. */
  function PipPackageName(entry: string): string {
    var e := TrimSpace(entry);
    if e == "" || e[0] == '-' || HasUrl(e) then "" else Normalize(Cut(e))
  }

  lemma {:induction false} CutAt(s: string, i: nat)
    requires i <= |s| && (i < |s| ==> s[i] in "[=<>!~;@ \t") && forall j :: 0 <= j < i ==> s[j] !in "[=<>!~;@ \t"
    ensures Cut(s) == s[..i]
  {
    if i > 0 {
      CutAt(s[1..], i - 1);
      assert s[..i] == [s[0]] + s[1..][..i - 1];
    }
  }

  lemma PinnedChars(s: string)
    requires IsPinned(s)
    ensures s != [] && Alnum(s[0]) && !Space(s[|s| - 1])
    ensures forall i :: 0 <= i < |s| ==> s[i] != ':'
  {
    var e := IndexOf(s, '=');
    var b := IndexOf(s[..e], '[');
    var name, extras, version := s[..b], s[b..e], s[e + 2..];
    assert s[0] == name[0] && s[|s| - 1] == version[|version| - 1];
    forall i | 0 <= i < |s|
      ensures s[i] != ':'
    {
      if i < b {
        assert s[i] == name[i];
      } else if i < e {
        assert s[i] == extras[i - b];
        if b < i < e - 1 {
          assert extras[1..|extras| - 1][i - b - 1] == s[i];
        }
      } else if i >= e + 2 {
        assert s[i] == version[i - e - 2];
      }
    }
  }

  /** A pinned entry is never waved past the denylist: its package name is its own name part, and is not empty. */
  lemma PinnedHasName(s: string)
    requires IsPinned(s)
    ensures PipPackageName(s) == Normalize(s[..IndexOf(s[..IndexOf(s, '=')], '[')]) && PipPackageName(s) != ""
  {
    hide Words, Dashed, PinVersion, PinExtras, Cut;
    PinnedChars(s);
    var e := IndexOf(s, '=');
    var b := IndexOf(s[..e], '[');
    var name := s[..b];
    forall j | 0 <= j < b
      ensures s[j] !in "[=<>!~;@ \t"
    {
      assert s[j] == name[j];
    }
    assert b < e ==> s[b] == s[..e][b];
    CutAt(s, b);
    NonEmptyName(name);
  }

  lemma NonEmptyName(name: string)
    requires name != [] && Alnum(name[0])
    ensures Normalize(name) != ""
  {
    NonEmptyWords(ToLower(name));
    DashedEnd(Words(ToLower(name)));
  }

  predicate Spaces(s: string) {
    forall i :: 0 <= i < |s| ==> Space(s[i])
  }

  lemma {:induction false} TrimsBlanks(pre: string, core: string, post: string)
    requires Spaces(pre) && Spaces(post) && core != [] && !Space(core[0]) && !Space(core[|core| - 1])
    ensures TrimSpace(pre + core + post) == core
    decreases |pre| + |post|
  {
    var s := pre + core + post;
    if pre != [] {
      assert s[1..] == pre[1..] + core + post && Space(s[0]);
      TrimsBlanks(pre[1..], core, post);
    } else if post != [] {
      var n := |post| - 1;
      assert s[..|s| - 1] == pre + core + post[..n] && s[0] == core[0];
      assert s[|s| - 1] == post[n] && Space(post[n]);
      TrimsBlanks(pre, core, post[..n]);
    } else {
      assert s == core;
    }
  }

  /**
    A requirement's name is its leading name, whatever follows it (extras, any comparison, a marker, a
    URL's at-sign) and whatever blanks surround it, unless it holds a URL.
  */
  lemma RequirementName(pre: string, name: string, rest: string, post: string)
    requires Spaces(pre) && Spaces(post) && PinName(name) && !HasUrl(name + rest)
    requires rest == "" || (rest[0] in "[=<>!~;@ \t" && !Space(rest[|rest| - 1]))
    ensures PipPackageName(pre + name + rest + post) == Normalize(name) && Normalize(name) != ""
  {
    var core := name + rest;
    assert core[|core| - 1] == if rest == "" then name[|name| - 1] else rest[|rest| - 1];
    TrimsBlanks(pre, core, post);
    assert pre + core + post == pre + name + rest + post;
    hide TrimSpace, HasUrl, Normalize;
    CutAt(core, |name|);
    assert core[..|name|] == name;
    NonEmptyName(name);
  }
}
