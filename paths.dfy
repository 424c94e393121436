/** File names in the image cache directory.

    A cached image lives at `join(cache_dir, str(message_id) + ext)`, where `ext` is
    the extension `posixpath.splitext` finds in the path the platform returned, or
    `.png` when it finds none. This module models the three library pieces involved
    (`str.rfind`, `posixpath.splitext`, `posixpath.join`), the decimal rendering
    `str(int)` that turns a message id into a cache key, and proves that a cache path
    names its key: two different keys never share a path. */
module Paths {
  import opened Wrappers

  /** Python's `str.rfind` for one character: the last index of `c` in `s`, or -1. */
  function LastIndexOf(s: string, c: char): (r: int)
    ensures -1 <= r < |s|
  {
    if |s| == 0 then -1
    else if s[|s| - 1] == c then |s| - 1
    else LastIndexOf(s[..|s| - 1], c)
  }

  /** `rfind` finds an occurrence of `c`, and there is none after it. */
  lemma {:induction false} LastIndexOfSpec(s: string, c: char)
    ensures var r := LastIndexOf(s, c);
            && (r >= 0 ==> s[r] == c)
            && forall i | r < i < |s| :: s[i] != c
  {
    if |s| > 0 && s[|s| - 1] != c {
      LastIndexOfSpec(s[..|s| - 1], c);
      var r := LastIndexOf(s, c);
      forall i | r < i < |s| ensures s[i] != c {
        if i < |s| - 1 {
          assert s[i] == s[..|s| - 1][i];
        }
      }
    }
  }

  /** A non-empty extension: a dot followed by no further dot and no separator. */
  predicate IsExtension(e: string) {
    |e| > 0 && e[0] == '.' && forall i | 1 <= i < |e| :: e[i] != '.' && e[i] != '/'
  }

  /** The scan `splitext` makes over the last path component before its last dot:
      whether some character of `p[i..j]` is not a dot. */
  function HasNonDot(p: string, i: int, j: int): bool
    requires 0 <= i && j <= |p|
    decreases j - i
  {
    i < j && (p[i] != '.' || HasNonDot(p, i + 1, j))
  }

  lemma {:induction false} HasNonDotSpec(p: string, i: int, j: int)
    requires 0 <= i && j <= |p|
    ensures HasNonDot(p, i, j) <==> exists k | i <= k < j :: p[k] != '.'
    decreases j - i
  {
    if i < j {
      HasNonDotSpec(p, i + 1, j);
    }
  }

  /** The extension half of `posixpath.splitext(p)`: from the last dot of the last
      path component to the end, unless that component consists of dots up to
      its last dot (a dotfile such as `.bashrc`), in which case it is empty. */
  function SplitExt(p: string): string {
    var sep := LastIndexOf(p, '/');
    var dot := LastIndexOf(p, '.');
    if sep < dot && HasNonDot(p, sep + 1, dot) then p[dot..] else ""
  }

  /** What `splitext` returns is a suffix of the path, and either empty or an
      extension. */
  lemma SplitExtShape(p: string)
    ensures var ext := SplitExt(p);
            && (ext == [] || IsExtension(ext))
            && |ext| <= |p| && ext == p[|p| - |ext|..]
  {
    LastIndexOfSpec(p, '/');
    LastIndexOfSpec(p, '.');
  }

  /** `posixpath.join(dir, name)` for two components. */
  function Join(dir: string, name: string): string {
    if |name| > 0 && name[0] == '/' then name else DirPrefix(dir) + name
  }

  /** What `posixpath.join` puts in front of a relative second component. */
  function DirPrefix(dir: string): string {
    if dir == "" || dir[|dir| - 1] == '/' then dir else dir + "/"
  }

  // ---------------------------------------------------------------------------
  // Message ids as cache keys

  function DigitChar(d: nat): char
    requires d < 10
  {
    "0123456789"[d]
  }

  function DigitValue(c: char): int {
    c as int - '0' as int
  }

  predicate IsDigit(c: char) {
    '0' <= c <= '9'
  }

  predicate AllDigits(s: string) {
    forall i | 0 <= i < |s| :: IsDigit(s[i])
  }

  /** Decimal digits of a natural number, without leading zeros. */
  function Digits(n: nat): (s: string)
    ensures |s| > 0 && AllDigits(s)
    ensures s[0] == '0' ==> n == 0
  {
    if n < 10 then [DigitChar(n)] else Digits(n / 10) + [DigitChar(n % 10)]
  }

  /** `str(n)` for a Python int. */
  function Decimal(n: int): (s: string)
    ensures IsDecimal(s)
  {
    if n < 0 then "-" + Digits(-n) else Digits(n)
  }

  /** The shape of `str(n)`: non-empty, digits and minus signs only. In particular a
      decimal never contains `/` or `.`, and is never the string "None". */
  predicate IsDecimal(s: string) {
    |s| > 0 && forall i | 0 <= i < |s| :: s[i] == '-' || IsDigit(s[i])
  }

  /** Value of a string of decimal digits. */
  function DigitsValue(s: string): nat
    requires AllDigits(s)
  {
    if |s| == 0 then 0 else DigitsValue(s[..|s| - 1]) * 10 + DigitValue(s[|s| - 1])
  }

  /** `int(s)` restricted to what `str` produces: the inverse of `Decimal`. */
  function ParseDecimal(s: string): Option<int> {
    if |s| > 1 && s[0] == '-' && AllDigits(s[1..]) then Some(-(DigitsValue(s[1..]) as int))
    else if |s| > 0 && AllDigits(s) then Some(DigitsValue(s))
    else None
  }

  lemma DigitRoundTrip(d: nat)
    requires d < 10
    ensures DigitValue(DigitChar(d)) == d
  {
  }

  lemma {:induction false} DigitsRoundTrip(n: nat)
    ensures DigitsValue(Digits(n)) == n
  {
    if n < 10 {
      DigitRoundTrip(n);
    } else {
      var s := Digits(n);
      DigitsRoundTrip(n / 10);
      DigitRoundTrip(n % 10);
      assert s[..|s| - 1] == Digits(n / 10);
    }
  }

  lemma ParseSigned(d: string)
    requires |d| > 0 && AllDigits(d)
    ensures ParseDecimal("-" + d) == Some(-(DigitsValue(d) as int))
  {
    assert ("-" + d)[1..] == d;
  }

  lemma ParseUnsigned(d: string)
    requires |d| > 0 && AllDigits(d)
    ensures ParseDecimal(d) == Some(DigitsValue(d) as int)
  {
    assert IsDigit(d[0]);
  }

  lemma ParseMinusDigits(m: nat)
    ensures ParseDecimal("-" + Digits(m)) == Some(-(m as int))
  {
    ParseSigned(Digits(m));
    DigitsRoundTrip(m);
  }

  lemma ParseDigits(m: nat)
    ensures ParseDecimal(Digits(m)) == Some(m as int)
  {
    ParseUnsigned(Digits(m));
    DigitsRoundTrip(m);
  }

  lemma ParseNegative(n: int)
    requires n < 0
    ensures ParseDecimal(Decimal(n)) == Some(n)
  {
    var m: nat := -n;
    assert Decimal(n) == "-" + Digits(m);
    ParseMinusDigits(m);
  }

  lemma ParseNonNegative(n: int)
    requires n >= 0
    ensures ParseDecimal(Decimal(n)) == Some(n)
  {
    assert Decimal(n) == Digits(n);
    ParseDigits(n);
  }

  /** Reading a message key back gives the message id it was made from. */
  lemma DecimalRoundTrip(n: int)
    ensures ParseDecimal(Decimal(n)) == Some(n)
  {
    if n < 0 {
      ParseNegative(n);
    } else {
      ParseNonNegative(n);
    }
  }

  /** Different message ids never share a cache key. */
  lemma DecimalInjective(m: int, n: int)
    requires Decimal(m) == Decimal(n)
    ensures m == n
  {
    DecimalRoundTrip(m);
    DecimalRoundTrip(n);
  }

  // ---------------------------------------------------------------------------
  // Cache file names

  const DefaultExtension: string := ".png"

  /** `file_ext or ".png"`. */
  function ExtOrDefault(ext: string): string {
    if ext == "" then DefaultExtension else ext
  }

  /** `f"{message_id}{file_ext}"`, with `file_ext` the source's extension or `.png`. */
  function CacheFileName(key: string, sourcePath: string): string {
    key + ExtOrDefault(SplitExt(sourcePath))
  }

  /** A cache file name is the key followed by an extension: the source path's own
      extension when it has one, `.png` when it has none. */
  lemma CacheFileNameShape(key: string, sourcePath: string)
    ensures var name := CacheFileName(key, sourcePath);
            && |name| > |key| && name[..|key|] == key
            && IsExtension(name[|key|..])
            && (SplitExt(sourcePath) != "" ==> name[|key|..] == SplitExt(sourcePath))
            && (SplitExt(sourcePath) == "" ==> name[|key|..] == DefaultExtension)
  {
    SplitExtShape(sourcePath);
  }

  /** `os.path.join(plugin_dir, "images")`: the cache directory, which never ends in
      a separator. */
  function CacheDir(pluginDir: string): (dir: string)
    ensures |dir| >= 6 && dir[|dir| - 6..] == "images"
  {
    Join(pluginDir, "images")
  }

  /** `os.path.join(cache_dir, file_name)`. The cache directory does not end in `/` and
      a key never starts with `/`, so the join is the directory, a separator and the
      file name (`CachePathIsJoin`). */
  function CachePath(dir: string, key: string, sourcePath: string): string {
    dir + "/" + CacheFileName(key, sourcePath)
  }

  lemma CachePathIsJoin(pluginDir: string, key: string, sourcePath: string)
    requires IsDecimal(key)
    ensures var dir := CacheDir(pluginDir);
            CachePath(dir, key, sourcePath) == Join(dir, CacheFileName(key, sourcePath))
  {
    var dir := CacheDir(pluginDir);
    assert dir[|dir| - 1] == "images"[5];
    assert CacheFileName(key, sourcePath)[0] == key[0];
  }

  /** `p` is a cache file of `key`: the cache directory, a separator, the key, and a
      non-empty extension. */
  predicate IsCachePathOf(dir: string, key: string, p: string) {
    var n := |dir| + 1 + |key|;
    |p| > n && p[..n] == dir + "/" + key && IsExtension(p[n..])
  }

  /** The extension `splitext` finds in `prefix + key + e` is `e`, whenever the prefix is
      a directory prefix and the key is a decimal. */
  lemma SplitExtOfCacheName(prefix: string, key: string, e: string)
    requires prefix == "" || prefix[|prefix| - 1] == '/'
    requires IsDecimal(key) && IsExtension(e)
    ensures SplitExt(prefix + key + e) == e
  {
    var p := prefix + key + e;
    var d := |prefix| + |key|;
    assert p[d] == '.';
    forall i | d < i < |p| ensures p[i] != '.' && p[i] != '/' {
      assert p[i] == e[i - d];
    }
    forall i | |prefix| <= i < d ensures p[i] != '/' && p[i] != '.' {
      assert p[i] == key[i - |prefix|];
    }
    assert p[d] != '/';
    LastIndexOfSpec(p, '/');
    LastIndexOfSpec(p, '.');
    var sep := LastIndexOf(p, '/');
    var dot := LastIndexOf(p, '.');
    assert dot == d;
    assert sep < |prefix|;
    assert p[|prefix|] != '.';
    assert HasNonDot(p, sep + 1, dot) by {
      HasNonDotSpec(p, sep + 1, dot);
    }
    assert p[dot..] == e;
  }

  /** Every path the cache writes for a key is a cache file of that key. */
  lemma CachePathIsOwned(dir: string, key: string, sourcePath: string)
    ensures IsCachePathOf(dir, key, CachePath(dir, key, sourcePath))
  {
    var name := CacheFileName(key, sourcePath);
    CacheFileNameShape(key, sourcePath);
    var e := name[|key|..];
    var p := CachePath(dir, key, sourcePath);
    assert p == (dir + "/" + key) + e;
  }

  /** Two sources with different extensions get different cache files under one key. */
  lemma CachePathsDiffer(dir: string, key: string, a: string, b: string)
    requires ExtOrDefault(SplitExt(a)) != ExtOrDefault(SplitExt(b))
    ensures CachePath(dir, key, a) != CachePath(dir, key, b)
  {
    SuffixDiffers(key, ExtOrDefault(SplitExt(a)), ExtOrDefault(SplitExt(b)));
    SuffixDiffers(dir + "/", CacheFileName(key, a), CacheFileName(key, b));
  }

  lemma SuffixDiffers(prefix: string, x: string, y: string)
    requires x != y
    ensures prefix + x != prefix + y
  {
    assert (prefix + x)[|prefix|..] == x;
    assert (prefix + y)[|prefix|..] == y;
  }

  /** A cached copy keeps its extension: `splitext` of the cache file gives the
      extension of the source, or `.png` when the source had none. */
  lemma CachePathKeepsExtension(dir: string, key: string, sourcePath: string)
    requires IsDecimal(key)
    ensures SplitExt(CachePath(dir, key, sourcePath)) == ExtOrDefault(SplitExt(sourcePath))
  {
    CacheFileNameShape(key, sourcePath);
    var e := ExtOrDefault(SplitExt(sourcePath));
    assert CachePath(dir, key, sourcePath) == (dir + "/") + key + e;
    SplitExtOfCacheName(dir + "/", key, e);
  }

  /** In a cache file of a decimal key, the key is followed by the first dot after the
      directory. */
  lemma DotEndsKey(dir: string, key: string, p: string)
    requires IsDecimal(key) && IsCachePathOf(dir, key, p)
    ensures p[|dir| + 1 + |key|] == '.'
    ensures forall j | |dir| + 1 <= j < |dir| + 1 + |key| :: p[j] != '.'
  {
    var n := |dir| + 1 + |key|;
    assert p[n] == p[n..][0];
    forall j | |dir| + 1 <= j < n ensures p[j] != '.' {
      assert p[j] == p[..n][j] == key[j - |dir| - 1];
    }
  }

  /** A path is the cache file of at most one key: deleting one record's file never
      deletes the file of a record under another key. */
  lemma CachePathInjective(dir: string, k1: string, k2: string, p: string)
    requires IsDecimal(k1) && IsDecimal(k2)
    requires IsCachePathOf(dir, k1, p) && IsCachePathOf(dir, k2, p)
    ensures k1 == k2
  {
    DotEndsKey(dir, k1, p);
    DotEndsKey(dir, k2, p);
    var base := |dir| + 1;
    assert |k1| == |k2|;
    assert k1 == p[..base + |k1|][base..] == k2;
  }
}
