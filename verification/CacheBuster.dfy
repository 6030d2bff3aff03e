/**
 The cache buster: a checksum of a file is put into its URL as an extra path element, and taken out
 again when the file is asked for.
 */
module CacheBuster {
  import opened Basics
  import opened Paths

  type Bytes = seq<int>
  type Checksum = n: nat | n < 0x1_0000_0000_0000_0000
  datatype AssetFile = AssetFile(path: string, data: Bytes)

  const BROTLI_SUFFIX := ".br"
  const GZIP_SUFFIX := ".gz"
  const CACHE_BUSTER_PREFIX := "gr."

  // ---------------------------------------------------------------- the checksum as text

  function Digit(n: nat): char
    requires n < 36
  {
    if n < 10 then '0' + n as char else 'a' + (n - 10) as char
  }

  function Digits(n: nat): string {
    if n < 36 then [Digit(n)] else Digits(n / 36) + [Digit(n % 36)]
  }

  function FormatInt(i: int): string {
    if i < 0 then "-" + Digits(-i) else Digits(i)
  }

  /** Reading an unsigned 64-bit number as a signed one. */
  function Signed(c: Checksum): int {
    if c < 0x8000_0000_0000_0000 then c else c - 0x1_0000_0000_0000_0000
  }

  function Hash(data: Bytes, crc: Bytes -> Checksum): string {
    FormatInt(Signed(crc(data)))
  }

  lemma DigitIsInjective(m: nat, n: nat)
    requires m < 36 && n < 36
    ensures Digit(m) == Digit(n) ==> m == n
    ensures Digit(m) != '/' && Digit(m) != '-'
  {
  }

  lemma {:induction false} DigitsAreDigits(n: nat)
    ensures Digits(n) != "" && '/' !in Digits(n) && '-' !in Digits(n)
  {
    if n < 36 {
      DigitIsInjective(n, 0);
    } else {
      DigitsAreDigits(n / 36);
      DigitIsInjective(n % 36, 0);
    }
  }

  lemma {:induction false} DigitsAreInjective(m: nat, n: nat)
    ensures Digits(m) == Digits(n) ==> m == n
    decreases m + n
  {
    if Digits(m) == Digits(n) {
      var a, b := Digits(m), Digits(n);
      DigitsAreDigits(m / 36);
      DigitsAreDigits(n / 36);
      DigitIsInjective(m % 36, n % 36);
      assert a[|a| - 1] == Digit(m % 36) && b[|b| - 1] == Digit(n % 36);
      if m >= 36 && n >= 36 {
        assert a[..|a| - 1] == Digits(m / 36) && b[..|b| - 1] == Digits(n / 36);
        DigitsAreInjective(m / 36, n / 36);
      }
    }
  }

  function DigitValue(c: char): int {
    if '0' <= c <= '9' then c as int - '0' as int else c as int - 'a' as int + 10
  }

  /** The number that a string of digits writes in base 36. */
  function Numeral(s: string): int {
    if s == "" then 0 else 36 * Numeral(s[..|s| - 1]) + DigitValue(s[|s| - 1])
  }

  lemma {:induction false} DigitsRead(n: nat)
    ensures Numeral(Digits(n)) == n
  {
    if n < 36 {
      assert Digits(n)[..0] == "";
    } else {
      DigitsRead(n / 36);
      assert Digits(n)[..|Digits(n)| - 1] == Digits(n / 36);
    }
  }

  /** Checksums are written in base 36, with a minus sign before a negative one. */
  lemma FormatIntReads(i: int)
    ensures var s := FormatInt(i);
      i == if s != "" && s[0] == '-' then -Numeral(s[1..]) else Numeral(s)
  {
    DigitsRead(if i < 0 then -i else i);
    DigitsAreDigits(if i < 0 then -i else i);
    if i < 0 { assert FormatInt(i)[1..] == Digits(-i); }
  }

  /** Different checksums are written differently, and never with a slash. */
  lemma HashTracksChecksum(a: Bytes, b: Bytes, crc: Bytes -> Checksum)
    ensures Hash(a, crc) == Hash(b, crc) <==> crc(a) == crc(b)
    ensures '/' !in Hash(a, crc)
  {
    var x, y := Signed(crc(a)), Signed(crc(b));
    DigitsAreDigits(if x < 0 then -x else x);
    DigitsAreDigits(if y < 0 then -y else y);
    if FormatInt(x) == FormatInt(y) {
      if x < 0 && y < 0 {
        assert FormatInt(x)[1..] == Digits(-x) && FormatInt(y)[1..] == Digits(-y);
        DigitsAreInjective(-x, -y);
      } else if x >= 0 && y >= 0 {
        DigitsAreInjective(x, y);
      }
    }
  }

  // ---------------------------------------------------------------- paths in and out

  /** The URL under which a file of the asset directory is known: without a compression suffix. */
  function KeyOf(prefix: string, path: string): string {
    var s := Join([prefix, path]);
    if HasSuffix(s, GZIP_SUFFIX) then TrimSuffix(s, GZIP_SUFFIX) else TrimSuffix(s, BROTLI_SUFFIX)
  }

  function Bust(url: string, hash: string): string {
    var (dir, file) := Split(url);
    Join([dir, CACHE_BUSTER_PREFIX + hash, file])
  }

  function CacheBustedPath(hashes: map<string, string>, url: string): string {
    if url in hashes then Bust(url, hashes[url]) else url
  }

  /** None is the panic on a path without any slash. */
  function StripCacheBusterPath(p: string): Option<string> {
    var (dir, f) := Split(p);
    if dir == "" then None else
      var (dir2, f2) := Split(Parent(dir));
      Some(DropBuster(p, dir2, f2, f))
  }

  /** A directory without its trailing slash. */
  function Parent(dir: string): string
    requires dir != ""
  {
    dir[..|dir| - 1]
  }

  function DropBuster(p: string, dir2: string, f2: string, f: string): string {
    if HasPrefix(f2, CACHE_BUSTER_PREFIX) then Join([dir2, f]) else p
  }

  datatype Claim = Claim(key: string, hash: string)

  function ClaimOf(prefix: string, file: AssetFile, crc: Bytes -> Checksum): Claim {
    Claim(KeyOf(prefix, file.path), Hash(file.data, crc))
  }

  function ClaimsOf(prefix: string, files: seq<AssetFile>, crc: Bytes -> Checksum): seq<Claim> {
    seq(|files|, i requires 0 <= i < |files| => ClaimOf(prefix, files[i], crc))
  }

  /** Registering files in the order they are walked: the first to claim a URL decides its hash. */
  function Registered(hashes: map<string, string>, claims: seq<Claim>): map<string, string> {
    if claims == [] then hashes else
      var r, c := Registered(hashes, claims[..|claims| - 1]), claims[|claims| - 1];
      if c.key in r then r else r[c.key := c.hash]
  }

  /** What a walk of a directory comes upon. */
  datatype Visit = Folder | Regular(file: AssetFile) | Failure

  /** The files walked up to the first failure. */
  function FilesBefore(walk: seq<Visit>): seq<AssetFile> {
    if walk == [] || walk[0].Failure? then []
    else (if walk[0].Regular? then [walk[0].file] else []) + FilesBefore(walk[1..])
  }

  predicate NoFailure(walk: seq<Visit>) {
    forall i | 0 <= i < |walk| :: !walk[i].Failure?
  }

  lemma NoFailureAfter(walk: seq<Visit>)
    requires walk != [] && NoFailure(walk)
    ensures NoFailure(walk[1..])
  {
  }

  /** The files registered are those walked before the first failure, in order: all of them, if there is
      none. */
  lemma {:induction false} FilesBeforeIs(walk: seq<Visit>, i: nat)
    requires i < |walk| && NoFailure(walk[..i])
    ensures walk[i].Failure? ==> FilesBefore(walk) == FilesBefore(walk[..i])
    ensures !walk[i].Failure? ==>
            FilesBefore(walk[..i + 1]) == FilesBefore(walk[..i]) + if walk[i].Regular? then [walk[i].file] else []
    ensures FilesBefore(walk[..i]) <= FilesBefore(walk)
    decreases i
  {
    if i == 0 {
      assert walk[..1][1..] == [];
    } else {
      var rest := walk[1..];
      assert walk[..i][1..] == rest[..i - 1] && walk[..i + 1][1..] == rest[..i] && rest[i - 1] == walk[i];
      NoFailureAfter(walk[..i]);
      assert !walk[..i][0].Failure?;
      FilesBeforeIs(rest, i - 1);
    }
  }

  lemma WalkOn(walk: seq<Visit>, i: nat, seen: seq<AssetFile>)
    requires i < |walk|
    ensures walk[i].Failure? ==> seen + FilesBefore(walk[i..]) == seen
    ensures walk[i].Folder? ==> FilesBefore(walk[i..]) == FilesBefore(walk[i + 1..])
    ensures walk[i].Regular? ==> seen + FilesBefore(walk[i..]) == seen + [walk[i].file] + FilesBefore(walk[i + 1..])
  {
    assert walk[i..][1..] == walk[i + 1..];
  }

  lemma RegisterOne(hashes: map<string, string>, prefix: string, files: seq<AssetFile>, file: AssetFile,
                    crc: Bytes -> Checksum)
    ensures var r, c := Registered(hashes, ClaimsOf(prefix, files, crc)), ClaimOf(prefix, file, crc);
      Registered(hashes, ClaimsOf(prefix, files + [file], crc)) == if c.key in r then r else r[c.key := c.hash]
  {
    var claims := ClaimsOf(prefix, files + [file], crc);
    assert claims[..|files|] == ClaimsOf(prefix, files, crc);
  }

  class Registry {
    var hashes: map<string, string>

    constructor ()
      ensures hashes == map[]
    {
      hashes := map[];
    }

    /** Walks the asset directory and registers every file in it.  A failure ends the walk in a panic; what
        was registered by then stays. */
    method RegisterAssetDirectory(prefix: string, walk: seq<Visit>, crc: Bytes -> Checksum) returns (panicked: bool)
      modifies this
      ensures hashes == Registered(old(hashes), ClaimsOf(prefix, FilesBefore(walk), crc))
      ensures panicked <==> Failure in walk
    {
      ghost var seen: seq<AssetFile> := [];
      for i := 0 to |walk|
        invariant hashes == Registered(old(hashes), ClaimsOf(prefix, seen, crc))
        invariant FilesBefore(walk) == seen + FilesBefore(walk[i..])
        invariant forall j | 0 <= j < i :: !walk[j].Failure?
      {
        WalkOn(walk, i, seen);
        match walk[i]
        case Failure =>
          assert FilesBefore(walk) == seen;
          return true;
        case Folder =>
        case Regular(file) =>
          RegisterFile(prefix, file, crc, old(hashes), seen);
          seen := seen + [file];
      }
      Regroup(seen, [], []);
      assert FilesBefore(walk) == seen;
      panicked := false;
    }

    method RegisterFile(prefix: string, file: AssetFile, crc: Bytes -> Checksum, ghost before: map<string, string>,
                        ghost seen: seq<AssetFile>)
      requires hashes == Registered(before, ClaimsOf(prefix, seen, crc))
      modifies this
      ensures hashes == Registered(before, ClaimsOf(prefix, seen + [file], crc))
    {
      var c := Examine(prefix, file, crc);
      RegisterOne(before, prefix, seen, file, crc);
      if c.key !in hashes {
        hashes := hashes[c.key := c.hash];
      }
    }

    static method Examine(prefix: string, file: AssetFile, crc: Bytes -> Checksum) returns (c: Claim)
      ensures c == ClaimOf(prefix, file, crc)
    {
      var e := Hash(file.data, crc);
      var s := Join([prefix, file.path]);
      if HasSuffix(s, GZIP_SUFFIX) {
        s := TrimSuffix(s, GZIP_SUFFIX);
      } else if HasSuffix(s, BROTLI_SUFFIX) {
        s := TrimSuffix(s, BROTLI_SUFFIX);
      }
      c := Claim(s, e);
    }
  }

  /** Claim `i` is the first on its URL. */
  predicate FirstFor(claims: seq<Claim>, i: int, key: string) {
    && 0 <= i < |claims| && claims[i].key == key
    && forall j | 0 <= j < i :: claims[j].key != key
  }

  /** A URL registered before keeps its hash; otherwise it is registered exactly when some file claims
      it, and the first such file gives the hash. */
  lemma {:induction false} FirstClaimWins(hashes: map<string, string>, claims: seq<Claim>, key: string)
    ensures var r := Registered(hashes, claims);
      && (key in hashes ==> key in r && r[key] == hashes[key])
      && (key !in hashes ==> (key in r <==> exists i :: FirstFor(claims, i, key)))
      && (key !in hashes ==> forall i | FirstFor(claims, i, key) :: r[key] == claims[i].hash)
  {
    var n := |claims| - 1;
    if n >= 0 {
      var fewer := claims[..n];
      FirstClaimWins(hashes, fewer, key);
      assert forall i | 0 <= i < n :: FirstFor(fewer, i, key) <==> FirstFor(claims, i, key);
      if key !in Registered(hashes, fewer) && claims[n].key == key {
        forall j | 0 <= j < n
          ensures claims[j].key != key
        {
          if claims[j].key == key { Earliest(fewer, j, key); }
        }
        assert FirstFor(claims, n, key);
      }
    }
  }

  lemma Earliest(claims: seq<Claim>, j: int, key: string)
    requires 0 <= j < |claims| && claims[j].key == key
    ensures exists i :: FirstFor(claims, i, key)
    decreases j
  {
    if i :| 0 <= i < j && claims[i].key == key {
      Earliest(claims, i, key);
    } else {
      assert FirstFor(claims, j, key);
    }
  }

  // ---------------------------------------------------------------- what the two directions do

  /** The directory left when its last element is a cache buster. */
  function Unbusted(ds: seq<string>): seq<string> {
    if ds != [] && HasPrefix(ds[|ds| - 1], CACHE_BUSTER_PREFIX) then ds[..|ds| - 1] else ds
  }

  predicate GoodHash(hash: string) {
    '/' !in hash
  }

  lemma BusterIsGood(hash: string)
    requires GoodHash(hash)
    ensures Good(CACHE_BUSTER_PREFIX + hash) && HasPrefix(CACHE_BUSTER_PREFIX + hash, CACHE_BUSTER_PREFIX)
  {
    var g := CACHE_BUSTER_PREFIX + hash;
    assert |g| >= 3 && g[..3] == CACHE_BUSTER_PREFIX;
  }

  /** Splitting a path made of elements. */
  lemma SplitShow(rooted: bool, ds: seq<string>, f: string)
    requires Plain(ds) && '/' !in f
    ensures Split(Show(rooted, ds + [f])) == (Directory(Root(rooted) + ds), f)
  {
    ElemsOfShow(rooted, ds + [f]);
    RootSnoc(rooted, ds, f);
    SplitSnoc(Show(rooted, ds + [f]), Root(rooted) + ds, f);
  }

  lemma SplitGlue(es: seq<string>, f: string)
    requires Plain(es) && '/' !in f
    ensures Split(Glue(es + [f])) == (Directory(es), f)
  {
    ElemsOfGlue(es + [f]);
    SplitSnoc(Glue(es + [f]), es, f);
  }

  lemma DirectoryTrims(es: seq<string>)
    requires es != []
    ensures Directory(es) != "" && Parent(Directory(es)) == Glue(es)
  {
  }

  lemma StripSplit(p: string, dir: string, f: string)
    requires Split(p) == (dir, f) && dir != ""
    ensures StripCacheBusterPath(p) == Some(DropBuster(p, Split(Parent(dir)).0, Split(Parent(dir)).1, f))
  {
  }

  lemma StripSplits(p: string, dir: string, f: string, dir2: string, f2: string)
    requires Split(p) == (dir, f) && dir != "" && Split(Parent(dir)) == (dir2, f2)
    ensures StripCacheBusterPath(p) == Some(DropBuster(p, dir2, f2, f))
  {
    StripSplit(p, dir, f);
  }

  lemma StripRest(up: seq<string>, g: string, f: string)
    requires Plain(up) && '/' !in g && '/' !in f
    ensures StripCacheBusterPath(Glue(up + [g] + [f])) == Some(DropBuster(Glue(up + [g] + [f]), Directory(up), g, f))
  {
    var es := up + [g];
    SplitGlue(es, f);
    SplitGlue(up, g);
    DirectoryTrims(es);
    StripSplits(Glue(es + [f]), Directory(es), f, Directory(up), g);
  }

  lemma StripBelowRoot(f: string)
    requires Good(f)
    ensures StripCacheBusterPath(Show(true, [f])) == Some(Show(true, [f]))
  {
    ShowIsGlue(true, [f]);
    assert Root(true) + [f] == [] + [""] + [f];
    StripRest([], "", f);
  }

  lemma StripBelow(rooted: bool, ds: seq<string>, g: string, f: string)
    requires AllGood(ds) && Good(g) && Good(f)
    ensures StripCacheBusterPath(Show(rooted, ds + [g] + [f])) ==
      Some(Show(rooted, (if HasPrefix(g, CACHE_BUSTER_PREFIX) then ds else ds + [g]) + [f]))
  {
    ShowIsGlue(rooted, ds + [g] + [f]);
    assert Root(rooted) + (ds + [g] + [f]) == Root(rooted) + ds + [g] + [f];
    StripRest(Root(rooted) + ds, g, f);
    JoinDirectory(rooted, ds, f);
  }

  /** Stripping drops the last directory element when it looks like a cache buster, and nothing else. */
  lemma StripShow(rooted: bool, ds: seq<string>, f: string)
    requires AllGood(ds) && Good(f) && (rooted || ds != [])
    ensures StripCacheBusterPath(Show(rooted, ds + [f])) == Some(Show(rooted, Unbusted(ds) + [f]))
  {
    if ds == [] {
      assert ds + [f] == [f];
      StripBelowRoot(f);
    } else {
      var up, g := ds[..|ds| - 1], ds[|ds| - 1];
      assert up + [g] == ds;
      StripBelow(rooted, up, g, f);
    }
  }

  lemma ShowIsGlue(rooted: bool, segs: seq<string>)
    requires segs != []
    ensures Show(rooted, segs) == Glue(Root(rooted) + segs)
  {
    GlueOfRooted(segs);
    assert [] + segs == segs;
    var g := Glue(segs);
    assert "" + g == g;
  }

  lemma ElemsOfPair(g: string, f: string)
    requires '/' !in g && '/' !in f
    ensures Elems(g + "/" + f) == [g, f]
  {
    ElemsOfTwo(g, f);
    ElemsOfPlain(g);
    ElemsOfPlain(f);
  }

  lemma SlashAssoc(a: string, b: string, c: string)
    ensures a + "/" + b + "/" + c == a + "/" + (b + "/" + c)
  {
  }

  lemma BustIsClean(ds: seq<string>, f: string, hash: string)
    requires AllGood(ds) && '/' !in f && GoodHash(hash)
    ensures Bust(Show(true, ds + [f]), hash) ==
            Clean(Directory(Root(true) + ds) + "/" + (CACHE_BUSTER_PREFIX + hash + "/" + f))
  {
    var dir, g := Directory(Root(true) + ds), CACHE_BUSTER_PREFIX + hash;
    SplitShow(true, ds, f);
    JoinOfThree(dir, g, f);
    SlashAssoc(dir, g, f);
  }

  lemma KeptOfPair(g: string, f: string)
    requires Good(g)
    ensures Kept([g, f]) == if f == "" || f == "." then [g] else [g, f]
  {
    assert [g, f][..1] == [g] && [g][..0] == [];
    assert Kept([g]) == [g];
  }

  lemma CleanBusted(ds: seq<string>, g: string, f: string)
    requires AllGood(ds) && Good(g) && '/' !in f && f != ".."
    ensures Clean(Directory(Root(true) + ds) + "/" + (g + "/" + f)) == Show(true, ds + Kept([g, f]))
  {
    ElemsOfPair(g, f);
    CleanDirectory(true, ds, g + "/" + f);
  }

  /** The checksum becomes the element before the file; an empty or "." file name is dropped. */
  lemma BustShow(ds: seq<string>, f: string, hash: string)
    requires AllGood(ds) && '/' !in f && f != ".." && GoodHash(hash)
    ensures var g := CACHE_BUSTER_PREFIX + hash;
      Bust(Show(true, ds + [f]), hash) == Show(true, ds + (if f == "" || f == "." then [g] else [g, f]))
  {
    var g := CACHE_BUSTER_PREFIX + hash;
    BusterIsGood(hash);
    BustIsClean(ds, f, hash);
    CleanBusted(ds, g, f);
    KeptOfPair(g, f);
  }

  lemma ParentCleans(ds: seq<string>, g: string)
    requires AllGood(ds) && Good(g)
    ensures CleanElems(Root(true) + ds + [""] + [g, ".."], true) == ds
  {
    var es := Root(true) + ds + [""] + [g];
    assert Root(true) + ds + [""] + [g, ".."] == es + [".."];
    CleanElemsSnoc(es, "..", true);
    NoParentsInGood(true, ds, [g]);
    CleanKeeps(es, true);
    KeptOfDirectory(true, ds, [g]);
    KeptOfGood([g]);
    assert (ds + [g])[..|ds|] == ds;
  }

  /** A file called ".." undoes the cache buster. */
  lemma BustParent(ds: seq<string>, hash: string)
    requires AllGood(ds) && GoodHash(hash)
    ensures Bust(Show(true, ds + [".."]), hash) == Show(true, ds)
  {
    var g := CACHE_BUSTER_PREFIX + hash;
    BusterIsGood(hash);
    BustIsClean(ds, "..", hash);
    ElemsOfPair(g, "..");
    DirectoryThen(true, ds, g + "/" + "..");
    ParentCleans(ds, g);
    CleanBy(Directory(Root(true) + ds) + "/" + (g + "/" + ".."), Root(true) + ds + [""] + [g, ".."], true, ds);
  }

  // ---------------------------------------------------------------- the round trip

  lemma StripsRoot()
    ensures StripCacheBusterPath(Show(true, [])) == Some("/")
  {
    assert Show(true, []) == "/";
    assert Split("/") == ("/", "");
    assert "/"[..0] == "";
  }

  /** Without its last element the path is still another path. */
  lemma LastDiffers(a: seq<string>, f: string, b: seq<string>, g: string)
    requires Plain(a) && Plain(b) && '/' !in f && '/' !in g && f != g
    ensures Show(true, a + [f]) != Show(true, b + [g])
  {
    ShowIsInjective(true, a + [f], b + [g]);
    assert (a + [f])[|a|] == f && (b + [g])[|b|] == g;
  }

  lemma StripUndoesBust(ds: seq<string>, f: string, hash: string)
    requires AllGood(ds) && Good(f) && GoodHash(hash)
    ensures StripCacheBusterPath(Bust(Show(true, ds + [f]), hash)) == Some(Show(true, ds + [f]))
  {
    var g := CACHE_BUSTER_PREFIX + hash;
    BusterIsGood(hash);
    BustShow(ds, f, hash);
    assert ds + [g, f] == ds + [g] + [f];
    StripBelow(true, ds, g, f);
  }

  lemma StripMissesEmpty(ds: seq<string>, f: string, hash: string)
    requires AllGood(ds) && (f == "" || f == ".") && GoodHash(hash)
    ensures StripCacheBusterPath(Bust(Show(true, ds + [f]), hash)) != Some(Show(true, ds + [f]))
  {
    var g := CACHE_BUSTER_PREFIX + hash;
    BusterIsGood(hash);
    BustShow(ds, f, hash);
    StripShow(true, ds, g);
    LastDiffers(Unbusted(ds), g, ds, f);
  }

  lemma ParentOfRoot()
    ensures Show(true, [".."]) != "/"
  {
    assert |Glue([".."])| == 2;
  }

  lemma StripMissesParent(ds: seq<string>, hash: string)
    requires AllGood(ds) && GoodHash(hash)
    ensures StripCacheBusterPath(Bust(Show(true, ds + [".."]), hash)) != Some(Show(true, ds + [".."]))
  {
    BustParent(ds, hash);
    if ds == [] {
      StripsRoot();
      assert ds + [".."] == [".."];
      ParentOfRoot();
    } else {
      var up, d := ds[..|ds| - 1], ds[|ds| - 1];
      assert up + [d] == ds;
      StripShow(true, up, d);
      LastDiffers(Unbusted(up), d, ds, "..");
    }
  }

  lemma StripMissesBust(ds: seq<string>, f: string, hash: string)
    requires AllGood(ds) && '/' !in f && !Good(f) && GoodHash(hash)
    ensures StripCacheBusterPath(Bust(Show(true, ds + [f]), hash)) != Some(Show(true, ds + [f]))
  {
    if f == ".." {
      StripMissesParent(ds, hash);
    } else {
      StripMissesEmpty(ds, f, hash);
    }
  }

  /** A URL with a clean rooted directory; the file name after the last slash may be anything. */
  predicate CleanKey(key: string) {
    var e := Elems(key);
    |e| >= 2 && e[0] == "" && AllGood(e[1..|e| - 1])
  }

  ghost predicate CleanRegistry(hashes: map<string, string>) {
    forall key | key in hashes :: CleanKey(key) && GoodHash(hashes[key])
  }

  lemma CleanKeyShows(key: string) returns (ds: seq<string>, f: string)
    requires CleanKey(key)
    ensures AllGood(ds) && '/' !in f && key == Show(true, ds + [f]) && f == Split(key).1
  {
    var e := Elems(key);
    ds, f := e[1..|e| - 1], e[|e| - 1];
    ElemsArePlain(key);
    GlueOfElems(key);
    assert e == Root(true) + (ds + [f]);
    ShowIsGlue(true, ds + [f]);
    SplitByElems(key);
  }

  lemma ShowsCleanKey(ds: seq<string>, f: string)
    requires AllGood(ds) && '/' !in f
    ensures CleanKey(Show(true, ds + [f]))
  {
    ElemsOfShow(true, ds + [f]);
    var e := Root(true) + (ds + [f]);
    assert e[1..|e| - 1] == ds;
  }

  /** A registered URL survives busting and stripping exactly when its file name is not empty, "." or
      "..", which it is for a file named with a compression suffix and nothing but dots before it. */
  lemma RoundTripIff(hashes: map<string, string>, key: string)
    requires CleanRegistry(hashes) && key in hashes
    ensures StripCacheBusterPath(CacheBustedPath(hashes, key)) == Some(key) <==>
      Split(key).1 != "" && Split(key).1 != "." && Split(key).1 != ".."
  {
    var ds, f := CleanKeyShows(key);
    if Good(f) {
      StripUndoesBust(ds, f, hashes[key]);
    } else {
      StripMissesBust(ds, f, hashes[key]);
    }
  }

  /** A file named just ".gz" is registered under a URL that does not come back. */
  lemma OnlyASuffix(hash: string)
    requires GoodHash(hash)
    ensures KeyOf("/assets", ".gz") == "/assets/"
    ensures StripCacheBusterPath(CacheBustedPath(map["/assets/" := hash], "/assets/")) != Some("/assets/")
  {
    PathsOfAssets();
    KeyOfFile(["assets"], false, [], ".gz");
    StripMissesBust(["assets"], "", hash);
  }

  lemma PathsOfAssets()
    ensures PrefixOf(["assets"], false) == "/assets" && Show(false, [] + [".gz"]) == ".gz"
    ensures ["assets"] + [] == ["assets"] && TrimName(".gz") == ""
    ensures Show(true, ["assets"] + [""]) == "/assets/"
  {
    assert [] + [".gz"] == [".gz"];
    assert (["assets"] + [""])[..1] == ["assets"];
  }

  /** The URL of a file changes exactly when its checksum does. */
  lemma UrlTracksChecksum(key: string, a: Bytes, b: Bytes, crc: Bytes -> Checksum)
    requires CleanKey(key) && Good(Split(key).1)
    ensures Bust(key, Hash(a, crc)) == Bust(key, Hash(b, crc)) <==> crc(a) == crc(b)
  {
    var ds, f := CleanKeyShows(key);
    HashTracksChecksum(a, b, crc);
    HashTracksChecksum(b, a, crc);
    var g, h := CACHE_BUSTER_PREFIX + Hash(a, crc), CACHE_BUSTER_PREFIX + Hash(b, crc);
    BustShow(ds, f, Hash(a, crc));
    BustShow(ds, f, Hash(b, crc));
    if Bust(key, Hash(a, crc)) == Bust(key, Hash(b, crc)) {
      ShowIsInjective(true, ds + [g, f], ds + [h, f]);
      assert g == (ds + [g, f])[|ds|] == h;
      assert g[3..] == Hash(a, crc) && h[3..] == Hash(b, crc);
    }
  }

  /** Asking for a file directly, without a cache buster, works exactly when its directory does not look
      like one. */
  lemma DirectPathIff(rooted: bool, ds: seq<string>, f: string)
    requires AllGood(ds) && Good(f) && (rooted || ds != [])
    ensures StripCacheBusterPath(Show(rooted, ds + [f])) == Some(Show(rooted, ds + [f])) <==>
      (ds == [] || !HasPrefix(ds[|ds| - 1], CACHE_BUSTER_PREFIX))
  {
    StripShow(rooted, ds, f);
    if Unbusted(ds) != ds { ShowIsInjective(rooted, Unbusted(ds) + [f], ds + [f]); }
  }

  /** For any path at all: stripping leaves it alone unless the element before its last slash looks like a
      cache buster. */
  lemma StripLeavesAlone(p: string)
    requires '/' in p
    ensures var e := Elems(p);
      && |e| >= 2
      && (!HasPrefix(e[|e| - 2], CACHE_BUSTER_PREFIX) ==> StripCacheBusterPath(p) == Some(p))
      && (HasPrefix(e[|e| - 2], CACHE_BUSTER_PREFIX) ==>
          StripCacheBusterPath(p) == Some(Join([Directory(e[..|e| - 2]), e[|e| - 1]])))
  {
    ElemsArePlain(p);
    GlueOfElems(p);
    var e := Elems(p);
    var up, g, f := e[..|e| - 2], e[|e| - 2], e[|e| - 1];
    assert up + [g] + [f] == e;
    StripRest(up, g, f);
  }

  /** The path of a directory, with its slash, is kept; a cache buster at its end is dropped along with the
      slash. */
  lemma StripDirectory(ds: seq<string>, g: string)
    requires AllGood(ds) && Good(g)
    ensures StripCacheBusterPath(Show(true, ds + [g] + [""])) ==
            Some(if HasPrefix(g, CACHE_BUSTER_PREFIX) then Show(true, ds) else Show(true, ds + [g] + [""]))
  {
    ShowIsGlue(true, ds + [g] + [""]);
    assert Root(true) + (ds + [g] + [""]) == Root(true) + ds + [g] + [""];
    StripRest(Root(true) + ds, g, "");
    JoinNothing(ds);
  }

  lemma JoinNothing(ds: seq<string>)
    requires AllGood(ds)
    ensures Join([Directory(Root(true) + ds), ""]) == Show(true, ds)
  {
    JoinOfTwo(Directory(Root(true) + ds), "");
    ElemsOfPlain("");
    KeptOfEmpty();
    CleanDirectory(true, ds, "");
    Regroup(ds, [], []);
  }

  lemma KeptOfEmpty()
    ensures Kept([""]) == []
  {
    KeptSnoc([], "");
    assert [] + [""] == [""];
  }

  /** A URL that is not registered gets no cache buster. */
  lemma UnregisteredIsKept(hashes: map<string, string>, url: string)
    ensures url !in hashes ==> CacheBustedPath(hashes, url) == url
  {
  }

  /** Stripping panics exactly on a path without a slash. */
  lemma StripPanicsIff(p: string)
    ensures StripCacheBusterPath(p).None? <==> '/' !in p
  {
    assert Split(p).0 + Split(p).1 == p;
  }

  // ---------------------------------------------------------------- registering a directory

  /** The URL prefix of an asset directory, with or without a slash at its end. */
  function PrefixOf(ps: seq<string>, slash: bool): string {
    if slash || ps == [] then Directory(Root(true) + ps) else Show(true, ps)
  }

  lemma UnderSlash(ps: seq<string>, qs: seq<string>)
    requires qs != []
    ensures Show(true, ps + qs) == Directory(Root(true) + ps) + Show(false, qs)
  {
    ShowIsGlue(true, ps + qs);
    assert Root(true) + (ps + qs) == Root(true) + ps + qs;
    GlueOfBoth(Root(true) + ps, qs);
    NothingBefore(Glue(qs), qs);
  }

  lemma UnderName(ps: seq<string>, qs: seq<string>)
    requires qs != [] && ps != []
    ensures Show(true, ps + qs) == Show(true, ps) + Show(true, qs)
  {
    GlueOfBoth(ps, qs);
  }

  lemma UnderPrefix(ps: seq<string>, slash: bool, qs: seq<string>)
    requires qs != []
    ensures Show(true, ps + qs) == PrefixOf(ps, slash) + Show(!(slash || ps == []), qs)
  {
    if slash || ps == [] {
      UnderSlash(ps, qs);
    } else {
      UnderName(ps, qs);
    }
  }

  lemma JoinUnderSlash(ps: seq<string>, ms: seq<string>)
    requires AllGood(ps) && AllGood(ms) && ms != []
    ensures Clean(PrefixOf(ps, true) + "/" + Show(false, ms)) == Show(true, ps + ms)
  {
    ElemsOfName(ms);
    KeptOfGood(ms);
    CleanDirectory(true, ps, Show(false, ms));
  }

  lemma JoinUnderName(ps: seq<string>, ms: seq<string>)
    requires AllGood(ps) && AllGood(ms) && ms != [] && ps != []
    ensures Clean(PrefixOf(ps, false) + "/" + Show(false, ms)) == Show(true, ps + ms)
  {
    UnderPrefix(ps, false, ms);
    assert Show(true, ms) == "/" + Show(false, ms);
    assert PrefixOf(ps, false) + "/" + Show(false, ms) == PrefixOf(ps, false) + ("/" + Show(false, ms));
    CleanFixes(true, ps + ms);
  }

  lemma JoinUnder(ps: seq<string>, slash: bool, ms: seq<string>)
    requires AllGood(ps) && AllGood(ms) && ms != []
    ensures Join([PrefixOf(ps, slash), Show(false, ms)]) == Show(true, ps + ms)
  {
    JoinOfTwo(PrefixOf(ps, slash), Show(false, ms));
    if slash || ps == [] {
      JoinUnderSlash(ps, ms);
    } else {
      JoinUnderName(ps, ms);
    }
  }

  function TrimName(f: string): string {
    if HasSuffix(f, GZIP_SUFFIX) then TrimSuffix(f, GZIP_SUFFIX) else TrimSuffix(f, BROTLI_SUFFIX)
  }

  lemma TrimAfterSlash(dir: string, f: string, t: string)
    requires dir != "" && dir[|dir| - 1] == '/' && '/' !in t && t != ""
    ensures HasSuffix(dir + f, t) <==> HasSuffix(f, t)
    ensures TrimSuffix(dir + f, t) == dir + TrimSuffix(f, t)
  {
    var s := dir + f;
    if |t| > |f| {
      if |t| <= |s| { assert s[|s| - |t|..][|t| - |f| - 1] == '/'; }
    } else {
      assert s[|s| - |t|..] == f[|f| - |t|..];
      assert s[..|s| - |t|] == dir + f[..|f| - |t|];
    }
  }

  /** A file is known by its own path under the prefix, without the compression suffix of its name. */
  lemma KeyOfFile(ps: seq<string>, slash: bool, ds: seq<string>, f: string)
    requires AllGood(ps) && AllGood(ds) && Good(f)
    ensures KeyOf(PrefixOf(ps, slash), Show(false, ds + [f])) == Show(true, ps + ds + [TrimName(f)])
  {
    JoinUnder(ps, slash, ds + [f]);
    assert ps + (ds + [f]) == ps + ds + [f];
    var dir := Directory(Root(true) + (ps + ds));
    SplitShow(true, ps + ds, f);
    TrimAfterSlash(dir, f, GZIP_SUFFIX);
    TrimAfterSlash(dir, f, BROTLI_SUFFIX);
    SplitShow(true, ps + ds, TrimName(f));
  }

  /** Exactly one compression suffix is taken off a name: gzip's if it ends in that, else brotli's. */
  lemma TrimNameIs(stem: string)
    ensures TrimName(stem + ".gz") == stem && TrimName(stem + ".br") == stem
    ensures !HasSuffix(stem, ".gz") && !HasSuffix(stem, ".br") ==> TrimName(stem) == stem
  {
    SuffixMeans(stem + ".gz", ".gz");
    SuffixMeans(stem + ".br", ".br");
    var s := stem + ".br";
    assert s[|s| - 3..] == ".br" && ".br"[2] != ".gz"[2];
  }

  /** The plain file and its compressed variants share one URL. */
  lemma VariantsShareUrl(ps: seq<string>, slash: bool, ds: seq<string>, f: string)
    requires AllGood(ps) && AllGood(ds) && Good(f) && !HasSuffix(f, ".gz") && !HasSuffix(f, ".br")
    ensures var prefix, url := PrefixOf(ps, slash), Show(true, ps + ds + [f]);
      && KeyOf(prefix, Show(false, ds + [f])) == url
      && KeyOf(prefix, Show(false, ds + [f + ".gz"])) == url
      && KeyOf(prefix, Show(false, ds + [f + ".br"])) == url
  {
    TrimNameIs(f);
    KeyOfFile(ps, slash, ds, f);
    GoodVariant(f, ".gz");
    GoodVariant(f, ".br");
    KeyOfFile(ps, slash, ds, f + ".gz");
    KeyOfFile(ps, slash, ds, f + ".br");
  }

  lemma GoodVariant(f: string, suffix: string)
    requires Good(f) && '/' !in suffix && |suffix| == 3
    ensures Good(f + suffix)
  {
    assert |f + suffix| >= 4;
  }

  lemma TrimmedIsPlain(f: string)
    requires '/' !in f
    ensures '/' !in TrimName(f)
    ensures f == TrimName(f) || f == TrimName(f) + GZIP_SUFFIX || f == TrimName(f) + BROTLI_SUFFIX
  {
  }

  lemma PathShows(path: string) returns (ds: seq<string>, f: string)
    requires AllGood(Elems(path))
    ensures AllGood(ds) && Good(f) && path == Show(false, ds + [f])
  {
    var e := Elems(path);
    ds, f := e[..|e| - 1], e[|e| - 1];
    assert ds + [f] == e;
    GlueOfElems(path);
    NothingBefore(path, e);
  }

  lemma ClaimIsClean(ps: seq<string>, slash: bool, file: AssetFile, crc: Bytes -> Checksum)
    requires AllGood(ps) && AllGood(Elems(file.path))
    ensures var c := ClaimOf(PrefixOf(ps, slash), file, crc);
      CleanKey(c.key) && GoodHash(c.hash)
  {
    var ds, f := PathShows(file.path);
    KeyOfFile(ps, slash, ds, f);
    TrimmedIsPlain(f);
    ShowsCleanKey(ps + ds, TrimName(f));
    HashTracksChecksum(file.data, file.data, crc);
  }

  lemma {:induction false} ClaimsKeepClean(hashes: map<string, string>, claims: seq<Claim>)
    requires CleanRegistry(hashes)
    requires forall i | 0 <= i < |claims| :: CleanKey(claims[i].key) && GoodHash(claims[i].hash)
    ensures CleanRegistry(Registered(hashes, claims))
  {
    if claims != [] { ClaimsKeepClean(hashes, claims[..|claims| - 1]); }
  }

  /** Every registration keeps the registry clean, so the round trip holds of all that was registered. */
  lemma RegisteringKeepsClean(hashes: map<string, string>, ps: seq<string>, slash: bool,
                              files: seq<AssetFile>, crc: Bytes -> Checksum)
    requires CleanRegistry(hashes) && AllGood(ps)
    requires forall i | 0 <= i < |files| :: AllGood(Elems(files[i].path))
    ensures CleanRegistry(Registered(hashes, ClaimsOf(PrefixOf(ps, slash), files, crc)))
  {
    var claims := ClaimsOf(PrefixOf(ps, slash), files, crc);
    forall i | 0 <= i < |claims|
      ensures CleanKey(claims[i].key) && GoodHash(claims[i].hash)
    {
      ClaimIsClean(ps, slash, files[i], crc);
    }
    ClaimsKeepClean(hashes, claims);
  }
}
