/**
 Slash-separated paths, as Go's `path` package defines `Split`, `Clean`, `Join` and `Ext` and as
 `io/fs` defines a valid path.  A path is also seen as the list of its elements, in which form the
 proofs are done.
 */
module Paths {
  import opened Basics

  // ---------------------------------------------------------------- fields and elements

  /** The pieces between separators; always at least one, and possibly empty. */
  function Fields(s: string, sep: char): (r: seq<string>)
    ensures |r| > 0
  {
    if s == "" then [""] else
      var r, c := Fields(s[..|s| - 1], sep), s[|s| - 1];
      if c == sep then r + [""] else r[..|r| - 1] + [r[|r| - 1] + [c]]
  }

  function Elems(s: string): (r: seq<string>)
    ensures |r| > 0
  {
    Fields(s, '/')
  }

  function Glue(segs: seq<string>): string {
    if segs == [] then "" else
    if |segs| == 1 then segs[0] else Glue(segs[..|segs| - 1]) + "/" + segs[|segs| - 1]
  }

  predicate Plain(segs: seq<string>) {
    forall i | 0 <= i < |segs| :: '/' !in segs[i]
  }

  /** An element that `Clean` keeps. */
  predicate Good(e: string) {
    '/' !in e && e != "" && e != "." && e != ".."
  }

  predicate AllGood(segs: seq<string>) {
    forall i | 0 <= i < |segs| :: Good(segs[i])
  }

  lemma {:induction false} ElemsArePlain(s: string)
    ensures Plain(Elems(s))
    ensures |Elems(s)| == 1 <==> '/' !in s
  {
    if s != "" {
      ElemsArePlain(s[..|s| - 1]);
      assert s == s[..|s| - 1] + [s[|s| - 1]];
    }
  }

  lemma {:induction false} FieldsOfPlain(s: string, sep: char)
    requires sep !in s
    ensures Fields(s, sep) == [s]
  {
    if s != "" {
      FieldsOfPlain(s[..|s| - 1], sep);
      assert s == s[..|s| - 1] + [s[|s| - 1]];
    }
  }

  lemma ElemsOfPlain(s: string)
    requires '/' !in s
    ensures Elems(s) == [s]
  {
    FieldsOfPlain(s, '/');
  }

  lemma FieldsSnoc(s: string, c: char, sep: char)
    ensures var r := Fields(s, sep);
      Fields(s + [c], sep) == if c == sep then r + [""] else r[..|r| - 1] + [r[|r| - 1] + [c]]
  {
    assert (s + [c])[..|s|] == s;
  }

  lemma SeparatorSnoc(a: string, sep: string, t: string, c: char)
    ensures a + sep + (t + [c]) == a + sep + t + [c]
    ensures a + sep + "" == a + sep
  {
  }

  lemma SnocOfTwo(x: seq<string>, y: seq<string>, c: char)
    requires y != []
    ensures x + y + [""] == x + (y + [""])
    ensures (x + y)[..|x + y| - 1] + [(x + y)[|x + y| - 1] + [c]] == x + (y[..|y| - 1] + [y[|y| - 1] + [c]])
  {
    assert (x + y)[..|x + y| - 1] == x + y[..|y| - 1];
  }

  lemma FieldsOfTwoStep(a: string, t: string, c: char, sep: char)
    requires Fields(a + [sep] + t, sep) == Fields(a, sep) + Fields(t, sep)
    ensures Fields(a + [sep] + (t + [c]), sep) == Fields(a, sep) + Fields(t + [c], sep)
  {
    SeparatorSnoc(a, [sep], t, c);
    FieldsSnoc(a + [sep] + t, c, sep);
    FieldsSnoc(t, c, sep);
    SnocOfTwo(Fields(a, sep), Fields(t, sep), c);
  }

  lemma {:induction false} FieldsOfTwo(a: string, b: string, sep: char)
    ensures Fields(a + [sep] + b, sep) == Fields(a, sep) + Fields(b, sep)
  {
    if b == "" {
      FieldsSnoc(a, sep, sep);
      SeparatorSnoc(a, [sep], "", sep);
    } else {
      var t, c := b[..|b| - 1], b[|b| - 1];
      assert b == t + [c];
      FieldsOfTwo(a, t, sep);
      FieldsOfTwoStep(a, t, c, sep);
    }
  }

  lemma ElemsOfTwo(a: string, b: string)
    ensures Elems(a + "/" + b) == Elems(a) + Elems(b)
  {
    FieldsOfTwo(a, b, '/');
    assert ['/'] == "/";
  }

  lemma GlueSnoc(segs: seq<string>, e: string)
    requires segs != []
    ensures Glue(segs + [e]) == Glue(segs) + "/" + e
  {
    assert (segs + [e])[..|segs|] == segs;
  }

  lemma {:induction false} ElemsOfGlue(segs: seq<string>)
    requires segs != [] && Plain(segs)
    ensures Elems(Glue(segs)) == segs
  {
    if |segs| == 1 {
      ElemsOfPlain(segs[0]);
    } else {
      var init, e := segs[..|segs| - 1], segs[|segs| - 1];
      assert segs == init + [e];
      ElemsOfGlue(init);
      ElemsOfPlain(e);
      GlueSnoc(init, e);
      ElemsOfTwo(Glue(init), e);
    }
  }

  lemma {:induction false} GlueOfElems(s: string)
    ensures Glue(Elems(s)) == s
  {
    if s != "" {
      var t, c := s[..|s| - 1], s[|s| - 1];
      assert s == t + [c];
      GlueOfElems(t);
      if c == '/' {
        GlueSnoc(Elems(t), "");
        SeparatorSnoc(t, "/", "", c);
      } else {
        var e := Elems(t);
        var init, last := e[..|e| - 1], e[|e| - 1];
        assert e == init + [last];
        GrowLast(init, last, c);
      }
    }
  }

  lemma GrowLast(init: seq<string>, e: string, c: char)
    ensures Glue(init + [e + [c]]) == Glue(init + [e]) + [c]
  {
    if init == [] {
      Regroup([e], [], []);
      Regroup([e + [c]], [], []);
    } else {
      GlueSnoc(init, e);
      GlueSnoc(init, e + [c]);
      SeparatorSnoc(Glue(init), "/", e, c);
    }
  }

  // ---------------------------------------------------------------- Split, Clean, Join

  /** The directory, up to and including the last slash, and the file after it. */
  function Split(s: string): (r: (string, string))
    ensures r.0 + r.1 == s && '/' !in r.1
    ensures r.0 == "" || r.0[|r.0| - 1] == '/'
  {
    if s == "" || s[|s| - 1] == '/' then (s, "") else
      var r := Split(s[..|s| - 1]);
      (r.0, r.1 + [s[|s| - 1]])
  }

  function Directory(segs: seq<string>): string {
    if segs == [] then "" else Glue(segs) + "/"
  }

  lemma {:induction false} SplitByElems(s: string)
    ensures var e := Elems(s); Split(s) == (Directory(e[..|e| - 1]), e[|e| - 1])
  {
    if s != "" {
      var t, c := s[..|s| - 1], s[|s| - 1];
      SplitByElems(t);
      var r, e := Elems(t), Elems(s);
      if c == '/' {
        assert e[..|e| - 1] == r;
        GlueOfElems(t);
        assert s == t + [c];
      } else {
        assert e[..|e| - 1] == r[..|r| - 1];
      }
    }
  }

  lemma SplitSnoc(s: string, es: seq<string>, f: string)
    requires Elems(s) == es + [f]
    ensures Split(s) == (Directory(es), f)
  {
    SplitByElems(s);
    assert (es + [f])[..|es|] == es;
  }

  /** One element of a path being cleaned. */
  function CleanStep(acc: seq<string>, e: string, rooted: bool): seq<string> {
    if e == "" || e == "." then acc
    else if e != ".." then acc + [e]
    else if acc != [] && acc[|acc| - 1] != ".." then acc[..|acc| - 1]
    else if rooted then acc
    else acc + [".."]
  }

  function CleanElems(es: seq<string>, rooted: bool): seq<string> {
    if es == [] then [] else CleanStep(CleanElems(es[..|es| - 1], rooted), es[|es| - 1], rooted)
  }

  /** A path made of elements. */
  function Show(rooted: bool, segs: seq<string>): string {
    (if rooted then "/" else "") + Glue(segs)
  }

  function Clean(s: string): string {
    if s == "" then "." else
      var rooted := s[0] == '/';
      var segs := CleanElems(Elems(s), rooted);
      if segs == [] && !rooted then "." else Show(rooted, segs)
  }

  function Append(buf: string, e: string): string {
    if buf == "" then e else buf + "/" + e
  }

  /** Elements put one after the other, skipping empty ones until there is something. */
  function Concat(buf: string, es: seq<string>): string
    decreases es
  {
    if es == [] then buf else Concat(Append(buf, es[0]), es[1..])
  }

  function Join(es: seq<string>): string {
    if Concat("", es) == "" then "" else Clean(Concat("", es))
  }

  function Ext(s: string): string {
    if s == "" || s[|s| - 1] == '/' then "" else
    if s[|s| - 1] == '.' then "." else
      var e := Ext(s[..|s| - 1]);
      if e == "" then "" else e + [s[|s| - 1]]
  }

  /** A path an `fs.FS` accepts. */
  predicate ValidPath(p: string) {
    p == "." || AllGood(Elems(p))
  }

  predicate HasPrefix(s: string, p: string) {
    |p| <= |s| && s[..|p|] == p
  }

  predicate HasSuffix(s: string, t: string) {
    |t| <= |s| && s[|s| - |t|..] == t
  }

  function TrimSuffix(s: string, t: string): string {
    if HasSuffix(s, t) then s[..|s| - |t|] else s
  }

  lemma SuffixMeans(s: string, t: string)
    ensures HasSuffix(s, t) <==> exists a :: s == a + t
    ensures HasSuffix(s, t) ==> TrimSuffix(s, t) + t == s
    ensures !HasSuffix(s, t) ==> TrimSuffix(s, t) == s
  {
    if HasSuffix(s, t) {
      assert s == s[..|s| - |t|] + t;
    }
    if a :| s == a + t {
      assert s[|s| - |t|..] == t;
    }
  }

  lemma PrefixMeans(s: string, p: string)
    ensures HasPrefix(s, p) <==> exists a :: s == p + a
  {
    if HasPrefix(s, p) {
      assert s == p + s[|p|..];
    }
  }

  /** The extension runs from the last dot of the last element. */
  lemma {:induction false} ExtIs(stem: string, ext: string)
    requires '.' !in ext && '/' !in ext
    ensures Ext(stem + "." + ext) == "." + ext
  {
    var s := stem + "." + ext;
    if ext == "" {
      assert s[|s| - 1] == '.';
    } else {
      var init := ext[..|ext| - 1];
      assert ext == init + [ext[|ext| - 1]];
      assert s[..|s| - 1] == stem + "." + init && s[|s| - 1] == ext[|ext| - 1];
      assert ext[|ext| - 1] in ext;
      ExtIs(stem, init);
    }
  }

  lemma {:induction false} NoExt(dir: string, f: string)
    requires '.' !in f && '/' !in f && (dir == "" || dir[|dir| - 1] == '/')
    ensures Ext(dir + f) == ""
  {
    var s := dir + f;
    if f == "" {
      assert s == dir;
    } else {
      assert s[..|s| - 1] == dir + f[..|f| - 1] && s[|s| - 1] == f[|f| - 1] && f[|f| - 1] in f;
      NoExt(dir, f[..|f| - 1]);
    }
  }

  // ---------------------------------------------------------------- how paths made of elements behave

  function Root(rooted: bool): seq<string> {
    if rooted then [""] else []
  }

  lemma NothingBefore(g: string, segs: seq<string>)
    ensures "" + g == g && Root(false) + segs == segs && "" + "/" + g == "/" + g
  {
  }

  lemma ElemsOfShow(rooted: bool, segs: seq<string>)
    requires segs != [] && Plain(segs)
    ensures Elems(Show(rooted, segs)) == Root(rooted) + segs
  {
    ElemsOfGlue(segs);
    NothingBefore(Glue(segs), segs);
    ElemsOfTwo("", Glue(segs));
  }

  lemma RootSnoc(rooted: bool, ds: seq<string>, f: string)
    ensures Root(rooted) + (ds + [f]) == Root(rooted) + ds + [f]
    ensures (Root(rooted) + ds + [f])[..|Root(rooted) + ds|] == Root(rooted) + ds
  {
  }

  lemma {:induction false} GlueIsNonempty(segs: seq<string>)
    requires segs != [] && segs[0] != "" && Plain(segs)
    ensures Glue(segs) != "" && Glue(segs)[0] != '/'
  {
    if |segs| > 1 { GlueIsNonempty(segs[..|segs| - 1]); }
  }

  /** Distinct lists of elements make distinct paths. */
  lemma ShowIsInjective(rooted: bool, a: seq<string>, b: seq<string>)
    requires a != [] && b != [] && Plain(a) && Plain(b)
    ensures Show(rooted, a) == Show(rooted, b) ==> a == b
  {
    ElemsOfShow(rooted, a);
    ElemsOfShow(rooted, b);
    var r := Root(rooted);
    assert (r + a)[|r|..] == a && (r + b)[|r|..] == b;
  }

  /** The elements other than empty ones. */
  function Kept(es: seq<string>): seq<string> {
    if es == [] then [] else
      var r, e := Kept(es[..|es| - 1]), es[|es| - 1];
      if e == "" || e == "." then r else r + [e]
  }

  lemma {:induction false} CleanKeeps(es: seq<string>, rooted: bool)
    requires NoParents(es)
    ensures CleanElems(es, rooted) == Kept(es)
  {
    if es != [] { CleanKeeps(es[..|es| - 1], rooted); }
  }

  lemma KeptSnoc(es: seq<string>, e: string)
    ensures Kept(es + [e]) == if e == "" || e == "." then Kept(es) else Kept(es) + [e]
  {
    assert (es + [e])[..|es|] == es;
  }

  lemma KeptOfTwoStep(a: seq<string>, init: seq<string>, e: string)
    requires Kept(a + init) == Kept(a) + Kept(init)
    ensures Kept(a + (init + [e])) == Kept(a) + Kept(init + [e])
  {
    Regroup(a, init, [e]);
    Regroup(Kept(a), Kept(init), [e]);
    KeptSnoc(a + init, e);
    KeptSnoc(init, e);
  }

  lemma {:induction false} KeptOfTwo(a: seq<string>, b: seq<string>)
    ensures Kept(a + b) == Kept(a) + Kept(b)
  {
    if b == [] {
      assert a + b == a && Kept(a) + [] == Kept(a);
    } else {
      var init, e := b[..|b| - 1], b[|b| - 1];
      assert b == init + [e];
      KeptOfTwo(a, init);
      KeptOfTwoStep(a, init, e);
    }
  }

  lemma {:induction false} KeptOfGood(a: seq<string>)
    requires AllGood(a)
    ensures Kept(a) == a
  {
    if a != [] { KeptOfGood(a[..|a| - 1]); }
  }

  lemma CleanBy(s: string, es: seq<string>, rooted: bool, segs: seq<string>)
    requires s != "" && rooted == (s[0] == '/') && Elems(s) == es
    requires CleanElems(es, rooted) == segs && (segs != [] || rooted)
    ensures Clean(s) == Show(rooted, segs)
  {
  }

  /** `Clean` of a path without ".." drops empty and "." elements. */
  lemma CleanOf(s: string, es: seq<string>, rooted: bool, segs: seq<string>)
    requires s != "" && rooted == (s[0] == '/') && Elems(s) == es
    requires NoParents(es) && Kept(es) == segs && (segs != [] || rooted)
    ensures Clean(s) == Show(rooted, segs)
  {
    CleanKeeps(es, rooted);
    CleanBy(s, es, rooted, segs);
  }

  lemma ConcatOne(buf: string, e: string)
    ensures Concat(buf, [e]) == Append(buf, e)
  {
  }

  lemma ConcatTwo(a: string, b: string)
    ensures Concat("", [a, b]) == Append(a, b)
  {
    assert [a, b][1..] == [b];
    ConcatOne(a, b);
  }

  lemma JoinOfTwo(a: string, b: string)
    requires a != "" || b != ""
    ensures Join([a, b]) == Clean(if a == "" then b else a + "/" + b)
  {
    ConcatTwo(a, b);
  }

  lemma ConcatThree(a: string, b: string, c: string)
    ensures Concat("", [a, b, c]) == Append(Append(a, b), c)
  {
    assert [a, b, c][1..] == [b, c] && [b, c][1..] == [c];
    ConcatOne(Append(a, b), c);
  }

  lemma JoinOfThree(a: string, b: string, c: string)
    requires a != ""
    ensures Join([a, b, c]) == Clean(a + "/" + b + "/" + c)
  {
    ConcatThree(a, b, c);
  }

  lemma GoodIsKept(rooted: bool, segs: seq<string>)
    requires AllGood(segs)
    ensures Kept(Root(rooted) + segs) == segs && NoParents(Root(rooted) + segs)
  {
    KeptOfRoot(rooted, segs);
    KeptOfGood(segs);
  }

  /** A clean path is left alone. */
  lemma CleanFixes(rooted: bool, segs: seq<string>)
    requires segs != [] && AllGood(segs)
    ensures Clean(Show(rooted, segs)) == Show(rooted, segs)
  {
    ElemsOfShow(rooted, segs);
    GoodIsKept(rooted, segs);
    ShowHead(rooted, segs);
    CleanOf(Show(rooted, segs), Root(rooted) + segs, rooted, segs);
  }

  lemma ShowHead(rooted: bool, segs: seq<string>)
    requires segs != [] && AllGood(segs)
    ensures Show(rooted, segs) != "" && (Show(rooted, segs)[0] == '/') == rooted
  {
    GlueIsNonempty(segs);
    NothingBefore(Glue(segs), segs);
  }

  lemma ElemsOfName(segs: seq<string>)
    requires segs != [] && Plain(segs)
    ensures Elems(Show(false, segs)) == segs
  {
    ElemsOfShow(false, segs);
    NothingBefore("", segs);
  }

  lemma KeptOfRoot(rooted: bool, segs: seq<string>)
    ensures Kept(Root(rooted) + segs) == Kept(segs)
  {
    KeptOfTwo(Root(rooted), segs);
    assert [""][..0] == [];
    assert Kept(Root(rooted)) == [];
    NothingBefore("", Kept(segs));
    assert [] + Kept(segs) == Kept(segs);
  }

  /** ".." undoes the element before it; at the root it is dropped, and at the start of a relative path it
      stays. */
  lemma CleanParents(es: seq<string>, e: string, rooted: bool)
    requires e != "" && e != "." && e != ".."
    ensures CleanElems(es + [e] + [".."], rooted) == CleanElems(es, rooted)
    ensures CleanElems([] + [".."], rooted) == if rooted then [] else [".."]
  {
    CleanElemsSnoc(es + [e], "..", rooted);
    CleanElemsSnoc(es, e, rooted);
    CleanElemsSnoc([], "..", rooted);
    var c := CleanElems(es, rooted);
    assert (c + [e])[..|c|] == c;
  }

  lemma CleanElemsSnoc(es: seq<string>, e: string, rooted: bool)
    ensures CleanElems(es + [e], rooted) == CleanStep(CleanElems(es, rooted), e, rooted)
  {
    assert (es + [e])[..|es|] == es;
  }

  /** The elements of what follows a directory path and a second slash. */
  lemma DirectoryThen(rooted: bool, ds: seq<string>, rest: string)
    requires AllGood(ds) && (rooted || ds != [])
    ensures var s := Directory(Root(rooted) + ds) + "/" + rest;
      s != "" && (s[0] == '/') == rooted && Elems(s) == Root(rooted) + ds + [""] + Elems(rest)
  {
    var es := Root(rooted) + ds;
    var dir := Directory(es);
    ElemsOfTwo(dir, rest);
    ElemsOfTwo(Glue(es), "");
    ElemsOfGlue(es);
    assert Glue(es) + "/" + "" == dir;
    if rooted {
      GlueOfRooted(ds);
    } else {
      GlueIsNonempty(ds);
      assert es == ds;
    }
  }

  lemma {:induction false} GlueOfRooted(ds: seq<string>)
    ensures Glue([""] + ds) == if ds == [] then "" else "/" + Glue(ds)
  {
    if |ds| > 1 {
      GlueOfRooted(ds[..|ds| - 1]);
      assert ([""] + ds)[..|ds|] == [""] + ds[..|ds| - 1];
    } else if |ds| == 1 {
      assert ([""] + ds)[..1] == [""];
    }
  }

  lemma KeptOfDirectory(rooted: bool, ds: seq<string>, rest: seq<string>)
    requires AllGood(ds)
    ensures Kept(Root(rooted) + ds + [""] + rest) == ds + Kept(rest)
  {
    var r: seq<string> := if rooted then [""] else [];
    assert [""][..0] == [];
    assert Kept([""]) == [] && Kept(r) == [];
    KeptOfGood(ds);
    KeptOfTwo(r, ds);
    KeptOfTwo(r + ds, [""]);
    KeptOfTwo(r + ds + [""], rest);
    assert [] + ds + [] == ds;
  }

  predicate NoParents(es: seq<string>) {
    forall i | 0 <= i < |es| :: es[i] != ".."
  }

  lemma NoParentsInGood(rooted: bool, ds: seq<string>, rest: seq<string>)
    requires AllGood(ds) && NoParents(rest)
    ensures NoParents(Root(rooted) + ds + [""] + rest)
  {
    assert NoParents(Root(rooted)) && NoParents([""]);
    assert NoParents(Root(rooted) + ds);
    assert NoParents(Root(rooted) + ds + [""]);
  }

  /** Cleaning what follows a directory and a second slash. */
  lemma CleanDirectory(rooted: bool, ds: seq<string>, rest: string)
    requires AllGood(ds) && (rooted || ds != []) && NoParents(Elems(rest))
    ensures Clean(Directory(Root(rooted) + ds) + "/" + rest) == Show(rooted, ds + Kept(Elems(rest)))
  {
    DirectoryThen(rooted, ds, rest);
    NoParentsInGood(rooted, ds, Elems(rest));
    KeptOfDirectory(rooted, ds, Elems(rest));
    CleanOf(Directory(Root(rooted) + ds) + "/" + rest, Root(rooted) + ds + [""] + Elems(rest),
            rooted, ds + Kept(Elems(rest)));
  }

  /** Joining an element to a directory of good elements. */
  lemma JoinDirectory(rooted: bool, ds: seq<string>, b: string)
    requires AllGood(ds) && Good(b)
    ensures Join([Directory(Root(rooted) + ds), b]) == Show(rooted, ds + [b])
  {
    ElemsOfPlain(b);
    if rooted || ds != [] {
      KeptOfGood([b]);
      CleanDirectory(rooted, ds, b);
      JoinOfTwo(Directory(Root(rooted) + ds), b);
    } else {
      JoinToNothing(b);
      assert Root(rooted) + ds == [] && ds + [b] == [b];
    }
  }

  lemma JoinToNothing(b: string)
    requires Good(b)
    ensures Join(["", b]) == Show(false, [b])
  {
    CleanFixes(false, [b]);
    JoinOfTwo("", b);
    assert "" + b == b && Show(false, [b]) == b;
  }

  lemma {:induction false} GlueOfBoth(a: seq<string>, b: seq<string>)
    requires a != [] && b != []
    ensures Glue(a + b) == Glue(a) + "/" + Glue(b)
  {
    var n := |b| - 1;
    assert (a + b)[..|a + b| - 1] == a + b[..n];
    if n == 0 {
      assert a + b[..n] == a;
    } else {
      GlueOfBoth(a, b[..n]);
    }
  }
}
