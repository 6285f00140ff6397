/**
 * The pure string helpers of controllers/bookController.js: `cleanId`, the
 * safe-filename chain of `saveOptimizedImage`, the URL built by `buildImageUrl`
 * and the filename `deleteImageFromUrl` extracts from a stored URL.
 */
module ImageNames {
  import opened Common
  import opened Text

  /* ---------- cleanId ---------- */

  predicate NotQuoteOrBackslash(c: char) {
    c != '"' && c != '\\'
  }

  /** The id with every double quote and backslash removed, then trimmed of
      surrounding whitespace. */
  function CleanId(id: string): (r: string)
    ensures '"' !in r && '\\' !in r
    ensures IsTrimmed(r)
    ensures |r| <= |id|
  {
    var kept := Keep(id, NotQuoteOrBackslash);
    TrimSubset(kept);
    Trim(kept)
  }

  /** Cleaning an already cleaned id changes nothing. */
  lemma CleanIdIdempotent(id: string)
    ensures CleanId(CleanId(id)) == CleanId(id)
  {
    var r := CleanId(id);
    assert forall k :: 0 <= k < |r| ==> NotQuoteOrBackslash(r[k]) by {
      forall k | 0 <= k < |r| ensures NotQuoteOrBackslash(r[k]) {
        assert r[k] in r;
      }
    }
    KeepAll(r, NotQuoteOrBackslash);
    TrimOfTrimmed(r);
  }

  /* ---------- the safe base name of an upload ---------- */

  predicate NotSlashOrDot(c: char) {
    c != '/' && c != '.'
  }

  /** The regex `/\.[^/.]+$/` matches at `k`: a dot followed by at least one
      character, none of them a dot or a slash, up to the end. */
  predicate ExtensionAt(s: string, k: nat) {
    k + 1 < |s| && s[k] == '.' && forall j :: k < j < |s| ==> NotSlashOrDot(s[j])
  }

  /** `.replace(/\.[^/.]+$/, "")`: drops the last extension when there is one. */
  function StripExtension(s: string): (r: string)
    ensures forall k: nat :: ExtensionAt(s, k) ==> r == s[..k]
    ensures (forall k: nat :: !ExtensionAt(s, k)) ==> r == s
  {
    match LastIndexOf(s, '.')
    case None =>
      NoDotNoExtension(s);
      s
    case Some(k) =>
      ExtensionAtLastDot(s, k);
      if k + 1 < |s| && '/' !in s[k + 1..] then s[..k] else s
  }

  lemma NoDotNoExtension(s: string)
    requires '.' !in s
    ensures forall k: nat :: !ExtensionAt(s, k)
  {
    forall k: nat | k < |s|
      ensures s[k] != '.'
    {
      assert s[k] in s;
    }
  }

  /** The regex can only match at the last dot, and matches there exactly when a
      character follows and none of what follows is a slash. */
  lemma ExtensionAtLastDot(s: string, k: nat)
    requires k < |s| && s[k] == '.'
    requires forall j :: k < j < |s| ==> s[j] != '.'
    ensures forall k': nat :: ExtensionAt(s, k') ==> k' == k
    ensures ExtensionAt(s, k) <==> k + 1 < |s| && '/' !in s[k + 1..]
  {
    if k + 1 < |s| {
      if '/' in s[k + 1..] {
        var t :| 0 <= t < |s[k + 1..]| && s[k + 1..][t] == '/';
        assert s[k + 1 + t] == '/';
      } else {
        forall j | k < j < |s|
          ensures NotSlashOrDot(s[j])
        {
          assert s[j] == s[k + 1..][j - k - 1];
        }
      }
    }
  }

  /** The match of that regex is unique. */
  lemma ExtensionUnique(s: string, k: nat, k': nat)
    requires ExtensionAt(s, k) && ExtensionAt(s, k')
    ensures k == k'
  {
  }

  /** `.replace(/\s+/g, "_")`: every maximal run of whitespace becomes one `_`. */
  function CollapseWhitespace(s: string): (r: string)
    ensures NoWhitespace(r)
    ensures |r| <= |s|
    decreases |s|
  {
    if s == [] then []
    else if IsWhitespace(s[0]) then "_" + CollapseWhitespace(TrimStart(s[1..]))
    else [s[0]] + CollapseWhitespace(s[1..])
  }

  predicate NotUnderscore(c: char) {
    c != '_'
  }

  predicate NotWhitespaceOrUnderscore(c: char) {
    !IsWhitespace(c) && c != '_'
  }

  lemma {:induction false} KeepSkipsWhitespace(s: string)
    ensures Keep(TrimStart(s), NotWhitespaceOrUnderscore) == Keep(s, NotWhitespaceOrUnderscore)
  {
    if s != [] && IsWhitespace(s[0]) {
      KeepSkipsWhitespace(s[1..]);
    }
  }

  /** Collapsing only turns whitespace into underscores: past the underscores, the
      result and the input hold the same other characters in the same order. */
  lemma {:induction false} CollapseKeepsText(s: string)
    ensures Keep(CollapseWhitespace(s), NotUnderscore) == Keep(s, NotWhitespaceOrUnderscore)
    decreases |s|
  {
    if s != [] {
      if IsWhitespace(s[0]) {
        var t := TrimStart(s[1..]);
        CollapseKeepsText(t);
        KeepSkipsWhitespace(s[1..]);
        assert ("_" + CollapseWhitespace(t))[1..] == CollapseWhitespace(t);
      } else {
        CollapseKeepsText(s[1..]);
        assert ([s[0]] + CollapseWhitespace(s[1..]))[1..] == CollapseWhitespace(s[1..]);
      }
    }
  }

  /** A string with no whitespace is left alone. */
  lemma {:induction false} CollapseWithoutWhitespace(s: string)
    requires NoWhitespace(s)
    ensures CollapseWhitespace(s) == s
  {
    if s != [] {
      CollapseWithoutWhitespace(s[1..]);
    }
  }

  /** Leading whitespace in front of a string that starts with no whitespace is all
      that `TrimStart` removes. */
  lemma {:induction false} TrimStartOfRun(w: string, b: string)
    requires AllWhitespace(w)
    requires b == [] || !IsWhitespace(b[0])
    ensures TrimStart(w + b) == b
  {
    if w != [] {
      assert (w + b)[1..] == w[1..] + b;
      TrimStartOfRun(w[1..], b);
    }
  }

  lemma CollapseCons(c: char, t: string)
    requires !IsWhitespace(c)
    ensures CollapseWhitespace([c] + t) == [c] + CollapseWhitespace(t)
  {
    assert ([c] + t)[1..] == t;
  }

  lemma CollapseRunStart(w: string, b: string)
    requires w != [] && AllWhitespace(w)
    requires b == [] || !IsWhitespace(b[0])
    ensures CollapseWhitespace(w + b) == "_" + CollapseWhitespace(b)
  {
    var s := w + b;
    assert s[0] == w[0];
    assert s[1..] == w[1..] + b;
    TrimStartOfRun(w[1..], b);
  }

  /** Each maximal run of whitespace becomes exactly one `_`: after a piece with no
      whitespace, a non-empty run followed by a non-whitespace character (or the end)
      turns into a single underscore. */
  lemma {:induction false} CollapseRun(a: string, w: string, b: string)
    requires NoWhitespace(a)
    requires w != [] && AllWhitespace(w)
    requires b == [] || !IsWhitespace(b[0])
    ensures CollapseWhitespace(a + w + b) == a + "_" + CollapseWhitespace(b)
    decreases |a|
  {
    if a == [] {
      assert a + w + b == w + b;
      CollapseRunStart(w, b);
    } else {
      assert NoWhitespace(a[1..]);
      CollapseRun(a[1..], w, b);
      CollapseRunCons(a, w, b);
    }
  }

  /** One character with no whitespace in front of a collapsed run. */
  lemma CollapseRunCons(a: string, w: string, b: string)
    requires a != [] && !IsWhitespace(a[0])
    requires CollapseWhitespace(a[1..] + w + b) == a[1..] + "_" + CollapseWhitespace(b)
    ensures CollapseWhitespace(a + w + b) == a + "_" + CollapseWhitespace(b)
  {
    var x := a[1..];
    var cb := CollapseWhitespace(b);
    assert a == [a[0]] + x;
    ConsConcat(a[0], x, w, b);
    ConsConcat(a[0], x, "_", cb);
    CollapseCons(a[0], x + w + b);
  }

  lemma ConsConcat(c: char, x: string, y: string, z: string)
    ensures [c] + (x + y + z) == [c] + x + y + z
  {
  }

  /** The characters the class `[\w.-]` admits: ASCII letters, digits, `_`, `.`, `-`. */
  predicate IsSafeChar(c: char) {
    ('A' <= c <= 'Z') || ('a' <= c <= 'z') || ('0' <= c <= '9') || c == '_' || c == '.' || c == '-'
  }

  predicate AllSafe(s: string) {
    forall k :: 0 <= k < |s| ==> IsSafeChar(s[k])
  }

  /** The characters of `s` that are letters, digits, `_`, `.` or `-`, in order;
      everything else is dropped. */
  function KeepSafe(s: string): (r: string)
    ensures AllSafe(r)
    ensures forall c :: c in r <==> c in s && IsSafeChar(c)
  {
    var r := Keep(s, IsSafeChar);
    assert forall k :: 0 <= k < |r| ==> r[k] in r;
    r
  }

  /** The safe characters of a concatenation are those of each part, in order. */
  lemma KeepSafeConcat(a: string, b: string)
    ensures KeepSafe(a + b) == KeepSafe(a) + KeepSafe(b)
  {
    KeepConcat(a, b, IsSafeChar);
  }

  /** A single character is kept exactly when it is safe. */
  lemma KeepSafeOne(c: char)
    ensures KeepSafe([c]) == if IsSafeChar(c) then [c] else []
  {
    KeepOne(c, IsSafeChar);
  }

  /** The base of a stored image's name: the original name without its extension,
      each whitespace run turned into `_`, and the unsafe characters dropped. */
  function SafeBase(originalName: string): (r: string)
    ensures AllSafe(r)
    ensures |r| <= |originalName|
  {
    KeepSafe(CollapseWhitespace(StripExtension(originalName)))
  }

  /** A name built only of safe characters passes through the base-name chain
      untouched once its extension is dropped. */
  lemma SafeBaseOfSafe(name: string)
    requires AllSafe(name)
    requires forall k: nat :: !ExtensionAt(name, k)
    ensures SafeBase(name) == name
  {
    assert NoWhitespace(name);
    CollapseWithoutWhitespace(name);
    KeepAll(name, IsSafeChar);
  }

  lemma AllSafeConcat(a: string, b: string)
    requires AllSafe(a) && AllSafe(b)
    ensures AllSafe(a + b)
  {
    forall k | 0 <= k < |a + b| ensures IsSafeChar((a + b)[k]) {
      if k < |a| { assert (a + b)[k] == a[k]; } else { assert (a + b)[k] == b[k - |a|]; }
    }
  }

  lemma SafeHasNoSlash(s: string)
    requires AllSafe(s)
    ensures '/' !in s
  {
    forall k | 0 <= k < |s| ensures s[k] != '/' {
      assert IsSafeChar(s[k]);
    }
  }

  const WebpSuffix: string := ".webp"

  /** `r` is `base`, then `-`, then `stamp`, then `.webp`. */
  predicate FilenameLayout(r: string, base: string, stamp: string) {
    && |r| == |base| + 1 + |stamp| + |WebpSuffix|
    && r[..|base|] == base
    && r[|base|] == '-'
    && r[|base| + 1..|base| + 1 + |stamp|] == stamp
    && r[|base| + 1 + |stamp|..] == WebpSuffix
  }

  /** `${safeBase}-${Date.now()}.webp`, with the clock reading passed in. */
  function ImageFilename(originalName: string, now: nat): (r: string)
    ensures AllSafe(r) && '/' !in r
    ensures FilenameLayout(r, SafeBase(originalName), NatToString(now))
  {
    var base := SafeBase(originalName);
    var stamp := NatToString(now);
    FilenameShape(base, stamp);
    (base + "-") + (stamp + WebpSuffix)
  }

  /** The shape of a name built from a safe base and a decimal time stamp. */
  lemma FilenameShape(base: string, stamp: string)
    requires AllSafe(base)
    requires forall k :: 0 <= k < |stamp| ==> IsDigit(stamp[k])
    ensures var r := (base + "-") + (stamp + WebpSuffix);
            AllSafe(r) && '/' !in r && FilenameLayout(r, base, stamp)
  {
    var head := base + "-";
    var tail := stamp + WebpSuffix;
    var r := head + tail;
    assert AllSafe(stamp);
    AllSafeConcat(base, "-");
    AllSafeConcat(stamp, WebpSuffix);
    AllSafeConcat(head, tail);
    SafeHasNoSlash(r);
    assert r[..|base|] == base;
    assert r[|base|] == '-';
    assert r[|base| + 1..|base| + 1 + |stamp|] == stamp;
    assert r[|base| + 1 + |stamp|..] == WebpSuffix;
  }

  /** Given the base, the layout fixes the stamp. */
  lemma LayoutFixesStamp(r: string, base: string, s1: string, s2: string)
    requires FilenameLayout(r, base, s1) && FilenameLayout(r, base, s2)
    ensures s1 == s2
  {
    assert |s1| == |s2|;
  }

  /** Two uploads of the same name at different clock readings get different
      filenames. */
  lemma ImageFilenameInjective(originalName: string, t1: nat, t2: nat)
    requires ImageFilename(originalName, t1) == ImageFilename(originalName, t2)
    ensures t1 == t2
  {
    var r := ImageFilename(originalName, t1);
    LayoutFixesStamp(r, SafeBase(originalName), NatToString(t1), NatToString(t2));
    DecimalRoundTrip(t1);
    DecimalRoundTrip(t2);
  }

  /** JavaScript's rendering of the name `saveOptimizedImage` returned:
      `null` when the request carried no file. */
  function TemplateText(name: Option<string>): (r: string)
    ensures name.Some? ==> r == name.value
    ensures name.None? ==> r == "null"
  {
    match name
    case None => "null"
    case Some(s) => s
  }

  const ImagesDir: string := "/images/"

  /** `buildImageUrl`: `urlBase` stands for `${req.protocol}://${req.get("host")}`. */
  function BuildImageUrl(urlBase: string, filename: string): (r: string)
    ensures |r| == |urlBase| + |ImagesDir| + |filename|
    ensures r[..|urlBase|] == urlBase && r[|urlBase|..|urlBase| + |ImagesDir|] == ImagesDir
    ensures r[|urlBase| + |ImagesDir|..] == filename
  {
    urlBase + ImagesDir + filename
  }

  /* ---------- deleteImageFromUrl ---------- */

  /** The name `deleteImageFromUrl` hands to `fs.unlink`: `imageUrl.split("/images/")[1]`,
      or None when the URL is empty, has no `/images/`, or that piece is empty. */
  function FilenameFromUrl(url: string): (r: Option<string>)
    ensures r.Some? ==> r.value != "" && !Occurs(r.value, ImagesDir)
    ensures url == "" || !Occurs(url, ImagesDir) ==> r.None?
    ensures forall i: nat, j: nat :: SecondPieceBounds(url, ImagesDir, i, j) ==>
              r == (if i + |ImagesDir| < j then Some(url[i + |ImagesDir|..j]) else None)
  {
    if url == "" then None
    else match SecondPiece(url, ImagesDir)
      case None => None
      case Some(f) =>
        if f == "" then None
        else
          SecondPieceFree(url, ImagesDir, f);
          Some(f)
  }

  /** Extraction undoes URL building: for any base whose own text (up to the
      directory) holds no `/images/`, and any non-empty name free of `/images/`. */
  lemma ExtractAfterBuild(urlBase: string, name: string)
    requires !Occurs(urlBase + "/images", ImagesDir)
    requires name != "" && !Occurs(name, ImagesDir)
    ensures FilenameFromUrl(BuildImageUrl(urlBase, name)) == Some(name)
  {
    assert ImagesDir[..|ImagesDir| - 1] == "/images";
    SecondPieceOfJoin(urlBase, ImagesDir, name);
  }

  /** A string without `/` never contains `/images/`. */
  lemma NoSlashNoImagesDir(s: string)
    requires '/' !in s
    ensures !Occurs(s, ImagesDir)
  {
    forall k: nat | k <= |s|
      ensures !OccursAt(s, ImagesDir, k)
    {
      if k < |s| {
        assert s[k] in s;
        assert s[k..k + 1] != ImagesDir[..1];
      }
    }
  }

  /** The URL stored for an upload yields the upload's own filename on deletion. */
  lemma StoredImageRoundTrip(urlBase: string, originalName: string, now: nat)
    requires !Occurs(urlBase + "/images", ImagesDir)
    ensures FilenameFromUrl(BuildImageUrl(urlBase, ImageFilename(originalName, now)))
            == Some(ImageFilename(originalName, now))
  {
    var f := ImageFilename(originalName, now);
    NoSlashNoImagesDir(f);
    ExtractAfterBuild(urlBase, f);
  }

  /** The extracted name is not confined to the images directory: a stored URL whose
      last part climbs out with `..` is handed on as it is. */
  lemma ExtractedNameMayClimb(urlBase: string)
    requires !Occurs(urlBase + "/images", ImagesDir)
    ensures FilenameFromUrl(BuildImageUrl(urlBase, "../app.js")) == Some("../app.js")
  {
    var name := "../app.js";
    forall k: nat | k <= |name|
      ensures !OccursAt(name, ImagesDir, k)
    {
      if k == 0 { assert name[0..8][1] != ImagesDir[1]; }
      if k == 1 { assert name[1..9][0] != ImagesDir[0]; }
    }
    ExtractAfterBuild(urlBase, name);
  }
}
