/**
 Serving a static file: the path asked for is brought into the form a file system wants, and then the
 stored variant that suits the request is chosen among the plain, the brotli and the gzip one.  The
 codecs are parameters.
 */
module StaticFiles {
  import opened Basics
  import opened Paths
  import opened CacheBuster

  datatype Entry = Dir | File(data: Bytes)
  type FileSystem = map<string, Entry>

  datatype Server = Server(fsys: FileSystem, useCacheBuster: bool, endings: seq<string>, processed: set<string>,
                           unbrotli: Bytes -> Option<Bytes>, gunzip: Bytes -> Option<Bytes>)

  datatype Response =
    | NotFound
    | Panicked
    | OpenedDirectory(path: string)
    | Processed(path: string, raw: Bytes)
    | Served(encoding: string, data: Bytes)

  function Stat(fsys: FileSystem, p: string): Option<Entry> {
    if !ValidPath(p) then None
    else if p == "." then Some(Dir)
    else if p in fsys then Some(fsys[p])
    else None
  }

  predicate Exists(fsys: FileSystem, p: string) {
    Stat(fsys, p).Some?
  }

  // ---------------------------------------------------------------- the request

  /** White space as Unicode has it, which is what `strings.TrimSpace` removes. */
  predicate IsSpace(c: char) {
    var n := c as int;
    || 0x09 <= n <= 0x0D || n == 0x20 || n == 0x85 || n == 0xA0
    || n == 0x1680 || 0x2000 <= n <= 0x200A || n == 0x2028 || n == 0x2029 || n == 0x202F || n == 0x205F || n == 0x3000
  }

  function TrimSpace(s: string): string {
    if s == "" then ""
    else if IsSpace(s[0]) then TrimSpace(s[1..])
    else if IsSpace(s[|s| - 1]) then TrimSpace(s[..|s| - 1])
    else s
  }

  /** One value of the header lists the encoding. */
  predicate Mentions(value: string, encoding: string) {
    Lists(Fields(value, ','), encoding)
  }

  predicate Lists(tokens: seq<string>, encoding: string) {
    exists j | 0 <= j < |tokens| :: TrimSpace(tokens[j]) == encoding
  }

  /** Some value of the header lists the encoding by its bare name. */
  predicate Accepts(values: seq<string>, encoding: string) {
    exists i | 0 <= i < |values| :: Mentions(values[i], encoding)
  }

  /** Entry `j` of value `i` is the bare name of the encoding. */
  predicate ListedAt(values: seq<string>, i: int, j: int, encoding: string) {
    0 <= i < |values| && 0 <= j < |Fields(values[i], ',')| && TrimSpace(Fields(values[i], ',')[j]) == encoding
  }

  lemma AcceptsIff(values: seq<string>, encoding: string)
    ensures Accepts(values, encoding) <==> exists i, j :: ListedAt(values, i, j, encoding)
  {
    if i, j :| ListedAt(values, i, j, encoding) {
      assert Mentions(values[i], encoding);
    }
    if i :| 0 <= i < |values| && Mentions(values[i], encoding) {
      var j :| 0 <= j < |Fields(values[i], ',')| && TrimSpace(Fields(values[i], ',')[j]) == encoding;
      assert ListedAt(values, i, j, encoding);
    }
  }

  method ReadTokens(tokens: seq<string>, gzip: bool, br: bool) returns (acceptsGzip: bool, acceptsBr: bool)
    ensures acceptsGzip == (gzip || Lists(tokens, "gzip"))
    ensures acceptsBr == (br || Lists(tokens, "br"))
  {
    acceptsGzip, acceptsBr := gzip, br;
    for j := 0 to |tokens|
      invariant acceptsGzip == (gzip || (exists k | 0 <= k < j :: TrimSpace(tokens[k]) == "gzip"))
      invariant acceptsBr == (br || (exists k | 0 <= k < j :: TrimSpace(tokens[k]) == "br"))
    {
      if TrimSpace(tokens[j]) == "gzip" {
        acceptsGzip := true;
      } else if TrimSpace(tokens[j]) == "br" {
        acceptsBr := true;
      }
    }
  }

  method ReadAcceptEncoding(values: seq<string>) returns (acceptsGzip: bool, acceptsBr: bool)
    ensures acceptsGzip == Accepts(values, "gzip")
    ensures acceptsBr == Accepts(values, "br")
    ensures acceptsGzip == exists i, j :: ListedAt(values, i, j, "gzip")
    ensures acceptsBr == exists i, j :: ListedAt(values, i, j, "br")
  {
    AcceptsIff(values, "gzip");
    AcceptsIff(values, "br");
    acceptsGzip, acceptsBr := false, false;
    for i := 0 to |values|
      invariant acceptsGzip == (exists k | 0 <= k < i :: Mentions(values[k], "gzip"))
      invariant acceptsBr == (exists k | 0 <= k < i :: Mentions(values[k], "br"))
    {
      acceptsGzip, acceptsBr := ReadTokens(Fields(values[i], ','), acceptsGzip, acceptsBr);
    }
  }

  lemma ListsOfTwo(x: seq<string>, y: seq<string>, encoding: string)
    ensures Lists(x + y, encoding) <==> Lists(x, encoding) || Lists(y, encoding)
  {
    var z := x + y;
    if j :| 0 <= j < |x| && TrimSpace(x[j]) == encoding {
      assert z[j] == x[j];
    }
    if j :| 0 <= j < |y| && TrimSpace(y[j]) == encoding {
      assert z[|x| + j] == y[j];
    }
  }

  /** A list is read piece by piece at its commas. */
  lemma ListMentions(a: string, b: string, encoding: string)
    ensures Mentions(a + "," + b, encoding) <==> Mentions(a, encoding) || Mentions(b, encoding)
  {
    FieldsOfTwo(a, b, ',');
    assert [','] == ",";
    ListsOfTwo(Fields(a, ','), Fields(b, ','), encoding);
  }

  predicate AllSpace(s: string) {
    forall i | 0 <= i < |s| :: IsSpace(s[i])
  }

  /** Neither the first nor the last character is white space. */
  predicate Tight(s: string) {
    s != "" ==> !IsSpace(s[0]) && !IsSpace(s[|s| - 1])
  }

  lemma {:induction false} TrimEmpty(s: string)
    requires AllSpace(s)
    ensures TrimSpace(s) == ""
  {
    if s != "" { TrimEmpty(s[1..]); }
  }

  /** White space around a word is trimmed, all of it and nothing else. */
  lemma {:induction false} TrimSpaceIs(left: string, word: string, right: string)
    requires AllSpace(left) && AllSpace(right) && Tight(word)
    ensures TrimSpace(left + word + right) == word
    decreases |left| + |right|
  {
    var s := left + word + right;
    if word == "" {
      TrimEmpty(s);
    } else if left != "" {
      assert s[1..] == left[1..] + word + right && s[0] == left[0];
      TrimSpaceIs(left[1..], word, right);
    } else if right != "" {
      var r := right[..|right| - 1];
      assert s[..|s| - 1] == left + word + r && s[0] == word[0] && s[|s| - 1] == right[|right| - 1];
      TrimSpaceIs(left, word, r);
    } else {
      assert s == word;
    }
  }

  /** An encoding named alone, or anywhere in a list, with white space around it or not, is recognised. */
  lemma NamedIsAccepted(values: seq<string>, i: nat, before: string, left: string, word: string, right: string, after: string)
    requires i < |values| && AllSpace(left) && AllSpace(right) && Tight(word) && ',' !in word
    requires var entry := left + word + right;
      || values[i] == entry || values[i] == entry + "," + after || values[i] == before + "," + entry
      || values[i] == before + "," + (entry + "," + after)
    ensures Accepts(values, word)
  {
    var entry := left + word + right;
    forall c: char | IsSpace(c) ensures c != ',' { }
    assert ',' !in entry;
    FieldsOfPlain(entry, ',');
    TrimSpaceIs(left, word, right);
    assert Fields(entry, ',')[0] == entry && Mentions(entry, word);
    ListMentions(entry, after, word);
    ListMentions(before, entry, word);
    ListMentions(before, entry + "," + after, word);
    assert Mentions(values[i], word);
  }

  lemma {:induction false} TrimmedAway(s: string, c: char)
    requires c in s && !IsSpace(c)
    ensures c in TrimSpace(s)
  {
    if IsSpace(s[0]) {
      assert s == [s[0]] + s[1..];
      TrimmedAway(s[1..], c);
    } else if IsSpace(s[|s| - 1]) {
      assert s == s[..|s| - 1] + [s[|s| - 1]];
      TrimmedAway(s[..|s| - 1], c);
    }
  }

  /** An encoding listed with a quality value is not recognised. */
  lemma QualityIsNotRecognised(value: string, encoding: string)
    requires ',' !in value && ';' in value && ';' !in encoding
    ensures !Mentions(value, encoding)
  {
    FieldsOfPlain(value, ',');
    TrimmedAway(value, ';');
  }

  predicate Hidden(endings: seq<string>, p: string) {
    exists i | 0 <= i < |endings| :: HasSuffix(p, endings[i])
  }

  lemma HiddenIff(endings: seq<string>, p: string)
    ensures Hidden(endings, p) <==> exists i, a :: 0 <= i < |endings| && p == a + endings[i]
  {
    if i :| 0 <= i < |endings| && HasSuffix(p, endings[i]) {
      SuffixMeans(p, endings[i]);
      var a :| p == a + endings[i];
    }
    if i, a :| 0 <= i < |endings| && p == a + endings[i] {
      SuffixMeans(p, endings[i]);
    }
  }

  method IsHidden(endings: seq<string>, p: string) returns (hidden: bool)
    ensures hidden == Hidden(endings, p)
    ensures hidden == exists i, a :: 0 <= i < |endings| && p == a + endings[i]
  {
    HiddenIff(endings, p);
    for i := 0 to |endings|
      invariant forall k | 0 <= k < i :: !HasSuffix(p, endings[k])
    {
      if HasSuffix(p, endings[i]) {
        return true;
      }
    }
    hidden := false;
  }

  // ---------------------------------------------------------------- the lookup

  /** The path in the file system; None is the panic of the cache buster. */
  function Resolve(server: Server, url: string): Option<string> {
    var stripped := if server.useCacheBuster then StripCacheBusterPath(url) else Some(url);
    if stripped.None? then None else Some(Normalize(server.fsys, Unslash(stripped.value)))
  }

  function Unslash(p: string): string {
    if p != "" && p[0] == '/' then p[1..] else p
  }

  function Normalize(fsys: FileSystem, p: string): string {
    if p == "" then "index.html"
    else if p[|p| - 1] == '/' then Join([p, "index.html"])
    else if Stat(fsys, p) == Some(Dir) then Join([p, "/index.html"])
    else p
  }

  /** Sending a stored file as it is. */
  function ServePath(server: Server, name: string, found: string, encoding: string): Response
    requires Exists(server.fsys, found)
  {
    match Stat(server.fsys, found).value
    case Dir => OpenedDirectory(found)
    case File(data) => if Ext(name) in server.processed then Processed(found, data) else Served(encoding, data)
  }

  /** Sending a stored file decompressed; a file that cannot be decompressed is not found. */
  function ServeDecompressed(server: Server, found: string, decode: Bytes -> Option<Bytes>): Response
    requires Exists(server.fsys, found)
  {
    match Stat(server.fsys, found).value
    case Dir => NotFound
    case File(data) => if decode(data).None? then NotFound else Served("", decode(data).value)
  }

  function Choose(server: Server, p: string, gzip: bool, br: bool): Response {
    if br && Exists(server.fsys, p + BROTLI_SUFFIX) then ServePath(server, p, p + BROTLI_SUFFIX, "br")
    else if gzip && Exists(server.fsys, p + GZIP_SUFFIX) then ServePath(server, p, p + GZIP_SUFFIX, "gzip")
    else if Exists(server.fsys, p) then ServePath(server, p, p, "")
    else if Exists(server.fsys, p + BROTLI_SUFFIX) then ServeDecompressed(server, p + BROTLI_SUFFIX, server.unbrotli)
    else if Exists(server.fsys, p + GZIP_SUFFIX) then ServeDecompressed(server, p + GZIP_SUFFIX, server.gunzip)
    else NotFound
  }

  function Serve(server: Server, url: string, values: seq<string>): Response {
    var p := Resolve(server, url);
    if p.None? then Panicked
    else if !ValidPath(p.value) || Hidden(server.endings, p.value) then NotFound
    else Choose(server, p.value, Accepts(values, "gzip"), Accepts(values, "br"))
  }

  method ServeStaticFile(server: Server, url: string, values: seq<string>) returns (r: Response)
    ensures r == Serve(server, url, values)
  {
    var p := url;
    if server.useCacheBuster {
      var stripped := StripCacheBusterPath(p);
      if stripped.None? { return Panicked; }
      p := stripped.value;
    }
    p := ReadPath(server.fsys, p);
    if !ValidPath(p) { return NotFound; }
    var hidden := IsHidden(server.endings, p);
    if hidden { return NotFound; }
    var gzip, br := ReadAcceptEncoding(values);
    r := ChooseVariant(server, p, gzip, br);
  }

  method ReadPath(fsys: FileSystem, path: string) returns (p: string)
    ensures p == Normalize(fsys, Unslash(path))
  {
    p := path;
    if |p| > 0 && p[0] == '/' {
      p := p[1..];
    }
    if p == "" {
      p := "index.html";
    } else if p[|p| - 1] == '/' {
      p := Join([p, "index.html"]);
    } else if Stat(fsys, p) == Some(Dir) {
      p := Join([p, "/index.html"]);
    }
  }

  method ChooseVariant(server: Server, p: string, gzip: bool, br: bool) returns (r: Response)
    ensures r == Choose(server, p, gzip, br)
  {
    var foundPath := p + BROTLI_SUFFIX;
    if br && Exists(server.fsys, foundPath) {
      return ServePath(server, p, foundPath, "br");
    }
    foundPath := p + GZIP_SUFFIX;
    if gzip && Exists(server.fsys, foundPath) {
      return ServePath(server, p, foundPath, "gzip");
    }
    if Exists(server.fsys, p) {
      return ServePath(server, p, p, "");
    }
    foundPath := p + BROTLI_SUFFIX;
    if Exists(server.fsys, foundPath) {
      return ServeDecompressed(server, foundPath, server.unbrotli);
    }
    foundPath := p + GZIP_SUFFIX;
    if Exists(server.fsys, foundPath) {
      return ServeDecompressed(server, foundPath, server.gunzip);
    }
    r := NotFound;
  }

  // ---------------------------------------------------------------- what the client gets

  function Decode(server: Server, encoding: string, data: Bytes): Option<Bytes> {
    if encoding == "br" then server.unbrotli(data)
    else if encoding == "gzip" then server.gunzip(data)
    else if encoding == "" then Some(data)
    else None
  }

  predicate HoldsContent(server: Server, p: string, encoding: string, content: Bytes) {
    var e := Stat(server.fsys, p);
    e.Some? ==> e.value.File? && Decode(server, encoding, e.value.data) == Some(content)
  }

  /** Whichever variants of the file exist hold the content, and no processor takes the file. */
  predicate Consistent(server: Server, name: string, content: Bytes) {
    && HoldsContent(server, name, "", content)
    && HoldsContent(server, name + BROTLI_SUFFIX, "br", content)
    && HoldsContent(server, name + GZIP_SUFFIX, "gzip", content)
    && Ext(name) !in server.processed
  }

  predicate SomeVariant(fsys: FileSystem, name: string) {
    Exists(fsys, name) || Exists(fsys, name + BROTLI_SUFFIX) || Exists(fsys, name + GZIP_SUFFIX)
  }

  /** The response carries the content in an encoding the client accepts. */
  predicate Delivers(server: Server, r: Response, values: seq<string>, content: Bytes) {
    && r.Served?
    && Decode(server, r.encoding, r.data) == Some(content)
    && (r.encoding == "" || Accepts(values, r.encoding))
  }

  /** Whatever the client accepts and whichever variants are stored, choosing one does not change the
      content, and there is a response exactly when there is a variant. */
  lemma ChoiceKeepsContent(server: Server, name: string, values: seq<string>, content: Bytes)
    requires Consistent(server, name, content)
    ensures var r := Choose(server, name, Accepts(values, "gzip"), Accepts(values, "br"));
      if SomeVariant(server.fsys, name) then Delivers(server, r, values, content) else r == NotFound
  {
  }

  /** A compressed variant is sent as it is exactly when it exists and the client accepts it, brotli
      before gzip. */
  lemma CompressedIff(server: Server, name: string, values: seq<string>, content: Bytes)
    requires Consistent(server, name, content) && SomeVariant(server.fsys, name)
    ensures var r := Choose(server, name, Accepts(values, "gzip"), Accepts(values, "br"));
      var br := Accepts(values, "br") && Exists(server.fsys, name + BROTLI_SUFFIX);
      && r.Served?
      && (r.encoding == "br" <==> br)
      && (r.encoding == "gzip" <==> !br && Accepts(values, "gzip") && Exists(server.fsys, name + GZIP_SUFFIX))
  {
  }

  lemma SlashMeansIndex(fsys: FileSystem, ds: seq<string>)
    requires AllGood(ds) && ds != []
    ensures Normalize(fsys, Directory(ds)) == Show(false, ds + ["index.html"])
  {
    NothingBefore("", ds);
    JoinDirectory(false, ds, "index.html");
  }

  lemma NameMeansIndex(fsys: FileSystem, ds: seq<string>)
    requires AllGood(ds) && ds != [] && Stat(fsys, Show(false, ds)) == Some(Dir)
    ensures Normalize(fsys, Show(false, ds)) == Show(false, ds + ["index.html"])
  {
    var up, d := ds[..|ds| - 1], ds[|ds| - 1];
    assert up + [d] == ds;
    UnslashShow(false, up, d);
    IndexOfDirectory(ds);
  }

  /** The root and every directory, asked for with or without a final slash, stand for their index page. */
  lemma DirectoryMeansIndex(fsys: FileSystem, ds: seq<string>)
    requires AllGood(ds)
    ensures Normalize(fsys, Directory(ds)) == Show(false, ds + ["index.html"])
    ensures ds != [] && Stat(fsys, Show(false, ds)) == Some(Dir) ==>
      Normalize(fsys, Show(false, ds)) == Show(false, ds + ["index.html"])
  {
    if ds == [] {
      assert ds + ["index.html"] == ["index.html"];
      NothingBefore("index.html", ds);
    } else {
      SlashMeansIndex(fsys, ds);
      if Stat(fsys, Show(false, ds)) == Some(Dir) { NameMeansIndex(fsys, ds); }
    }
  }

  lemma SecondSlash(dir: string, page: string)
    ensures dir + "/" + ("/" + page) == dir + "/" + "/" + page
  {
  }

  lemma PageOfDirectory(ds: seq<string>, page: string)
    requires AllGood(ds) && ds != [] && Good(page)
    ensures Join([Show(false, ds), "/" + page]) == Show(false, ds + [page])
  {
    ShowHead(false, ds);
    JoinOfTwo(Show(false, ds), "/" + page);
    NothingBefore(Glue(ds), ds);
    SecondSlash(Show(false, ds), page);
    ElemsOfPlain(page);
    KeptOfGood([page]);
    CleanDirectory(false, ds, page);
  }

  lemma IndexOfDirectory(ds: seq<string>)
    requires AllGood(ds) && ds != []
    ensures Join([Show(false, ds), "/index.html"]) == Show(false, ds + ["index.html"])
  {
    assert "/" + "index.html" == "/index.html";
    PageOfDirectory(ds, "index.html");
  }

  /** A request panics exactly when the cache buster meets a path without a slash, and is answered with
      the content exactly when the path is valid, not hidden and stored in some variant. */
  lemma AnsweredIff(server: Server, url: string, values: seq<string>, content: Bytes)
    requires Resolve(server, url).Some? ==> Consistent(server, Resolve(server, url).value, content)
    ensures var p, r := Resolve(server, url), Serve(server, url, values);
      && (r == Panicked <==> server.useCacheBuster && '/' !in url)
      && (Delivers(server, r, values, content) <==>
          p.Some? && ValidPath(p.value) && !Hidden(server.endings, p.value) && SomeVariant(server.fsys, p.value))
      && (r == Panicked || r == NotFound || Delivers(server, r, values, content))
  {
    StripPanicsIff(url);
    if Resolve(server, url).Some? {
      ChoiceKeepsContent(server, Resolve(server, url).value, values, content);
    }
  }

  /** A file whose extension has a processor is handed to it, as it is stored, exactly when some variant is
      sent as it is; a file that has to be decompressed first bypasses its processor. */
  lemma ProcessedIff(server: Server, name: string, gzip: bool, br: bool)
    requires Ext(name) in server.processed
    requires Stat(server.fsys, name) != Some(Dir)
    requires Stat(server.fsys, name + BROTLI_SUFFIX) != Some(Dir) && Stat(server.fsys, name + GZIP_SUFFIX) != Some(Dir)
    ensures var r := Choose(server, name, gzip, br);
      && (r.Processed? <==>
          || (br && Exists(server.fsys, name + BROTLI_SUFFIX)) || (gzip && Exists(server.fsys, name + GZIP_SUFFIX))
          || Exists(server.fsys, name))
      && (r.Processed? ==> Stat(server.fsys, r.path) == Some(File(r.raw)))
      && (r.Served? ==> r.encoding == "")
  {
  }

  /** What `http.StripPrefix` hands to the file server. */
  function StripPrefix(prefix: string, url: string): Option<string> {
    if HasPrefix(url, prefix) then Some(url[|prefix|..]) else None
  }

  lemma StripPrefixOf(prefix: string, rest: string)
    ensures StripPrefix(prefix, prefix + rest) == Some(rest)
  {
  }

  lemma UnslashShow(rooted: bool, ds: seq<string>, f: string)
    requires AllGood(ds) && Good(f)
    ensures Unslash(Show(rooted, ds + [f])) == Show(false, ds + [f])
    ensures var p := Show(false, ds + [f]); p != "" && p[|p| - 1] != '/' && ValidPath(p)
  {
    ShowHead(false, ds + [f]);
    NothingBefore(Glue(ds + [f]), ds + [f]);
    SplitShow(false, ds, f);
    ElemsOfName(ds + [f]);
  }

  /** Busting the URL of an asset, removing the prefix and removing the cache buster gives the asset's own
      path in its file system. */
  lemma AssetPathComesBack(server: Server, hashes: map<string, string>, ps: seq<string>, slash: bool,
                           ds: seq<string>, f: string)
    requires server.useCacheBuster && AllGood(ps) && AllGood(ds) && Good(f)
    requires var key := Show(true, ps + ds + [f]); key in hashes && GoodHash(hashes[key])
    requires Stat(server.fsys, Show(false, ds + [f])) != Some(Dir)
    ensures var p := StripPrefix(PrefixOf(ps, slash), CacheBustedPath(hashes, Show(true, ps + ds + [f])));
      p.Some? && Resolve(server, p.value) == Some(Show(false, ds + [f]))
  {
    var key, rooted := Show(true, ps + ds + [f]), !(slash || ps == []);
    var g := CACHE_BUSTER_PREFIX + hashes[key];
    BusterIsGood(hashes[key]);
    BustShow(ps + ds, f, hashes[key]);
    assert ps + ds + [g, f] == ps + (ds + [g] + [f]);
    UnderPrefix(ps, slash, ds + [g] + [f]);
    StripPrefixOf(PrefixOf(ps, slash), Show(rooted, ds + [g] + [f]));
    StripBelow(rooted, ds, g, f);
    UnslashShow(rooted, ds, f);
  }

  lemma AssetIsDelivered(server: Server, hashes: map<string, string>, ps: seq<string>, slash: bool,
                         ds: seq<string>, f: string, values: seq<string>, content: Bytes)
    requires server.useCacheBuster && server.endings == [] && AllGood(ps) && AllGood(ds) && Good(f)
    requires var key := Show(true, ps + ds + [f]); key in hashes && GoodHash(hashes[key])
    requires Consistent(server, Show(false, ds + [f]), content) && SomeVariant(server.fsys, Show(false, ds + [f]))
    ensures var p := StripPrefix(PrefixOf(ps, slash), CacheBustedPath(hashes, Show(true, ps + ds + [f])));
      p.Some? && Delivers(server, Serve(server, p.value, values), values, content)
  {
    UnslashShow(false, ds, f);
    AssetPathComesBack(server, hashes, ps, slash, ds, f);
    ChoiceKeepsContent(server, Show(false, ds + [f]), values, content);
  }

  /** Every registered asset with a usable name is delivered at its busted URL, to every client, with
      the content its stored variants agree on. */
  lemma RegisteredAssetIsDelivered(server: Server, before: map<string, string>, ps: seq<string>, slash: bool,
                                   files: seq<AssetFile>, crc: Bytes -> Checksum, i: nat, ds: seq<string>, f: string,
                                   values: seq<string>, content: Bytes)
    requires server.useCacheBuster && server.endings == []
    requires CleanRegistry(before) && AllGood(ps)
    requires forall j | 0 <= j < |files| :: AllGood(Elems(files[j].path))
    requires i < |files| && AllGood(ds) && Good(f) && files[i].path == Show(false, ds + [f])
    requires files[i].path in server.fsys
    requires Good(TrimName(f)) && Consistent(server, Show(false, ds + [TrimName(f)]), content)
    ensures var prefix := PrefixOf(ps, slash);
      var hashes := Registered(before, ClaimsOf(prefix, files, crc));
      var p := StripPrefix(prefix, CacheBustedPath(hashes, KeyOf(prefix, files[i].path)));
      p.Some? && Delivers(server, Serve(server, p.value, values), values, content)
  {
    KeyOfFile(ps, slash, ds, f);
    FileIsRegistered(before, ps, slash, files, crc, i);
    VariantOf(server.fsys, ds, f);
    var hashes := Registered(before, ClaimsOf(PrefixOf(ps, slash), files, crc));
    AssetIsDelivered(server, hashes, ps, slash, ds, TrimName(f), values, content);
  }

  lemma SuffixOnShow(ds: seq<string>, t: string, x: string)
    requires AllGood(ds) && '/' !in t && '/' !in x
    ensures Show(false, ds + [t + x]) == Show(false, ds + [t]) + x
  {
    SplitShow(false, ds, t + x);
    SplitShow(false, ds, t);
    var dir := Directory(Root(false) + ds);
    assert dir + (t + x) == dir + t + x;
  }

  /** The stored file is one of the variants of the name without its suffix. */
  lemma VariantOf(fsys: FileSystem, ds: seq<string>, f: string)
    requires AllGood(ds) && Good(f) && Show(false, ds + [f]) in fsys
    ensures SomeVariant(fsys, Show(false, ds + [TrimName(f)]))
  {
    var t := TrimName(f);
    StoredExists(fsys, ds, f);
    TrimmedIsPlain(f);
    SuffixOnShow(ds, t, GZIP_SUFFIX);
    SuffixOnShow(ds, t, BROTLI_SUFFIX);
  }

  lemma StoredExists(fsys: FileSystem, ds: seq<string>, f: string)
    requires AllGood(ds) && Good(f) && Show(false, ds + [f]) in fsys
    ensures Exists(fsys, Show(false, ds + [f]))
  {
    UnslashShow(false, ds, f);
  }

  /** A file's URL is registered, and with a usable hash. */
  lemma FileIsRegistered(before: map<string, string>, ps: seq<string>, slash: bool,
                         files: seq<AssetFile>, crc: Bytes -> Checksum, i: nat)
    requires CleanRegistry(before) && AllGood(ps) && i < |files|
    requires forall j | 0 <= j < |files| :: AllGood(Elems(files[j].path))
    ensures var hashes := Registered(before, ClaimsOf(PrefixOf(ps, slash), files, crc));
      var key := KeyOf(PrefixOf(ps, slash), files[i].path);
      key in hashes && GoodHash(hashes[key])
  {
    var claims, key := ClaimsOf(PrefixOf(ps, slash), files, crc), KeyOf(PrefixOf(ps, slash), files[i].path);
    RegisteringKeepsClean(before, ps, slash, files, crc);
    FirstClaimWins(before, claims, key);
    assert claims[i].key == key;
    Earliest(claims, i, key);
  }
}
