/**
 * The cache key (`RemoteOutputsCache.getCacheKey`): the artifact's base name, an underscore,
 * the Java hash of its key in hexadecimal, a dot and the extension of the whole key. It is
 * both the key of the in-memory index and the file name inside the cache directory.
 */
module CacheKeys {
  import opened Wrappers
  import opened JavaString
  import opened IdePaths

  /**
   * The cache key of an artifact whose `getKey()` is `key`. Splitting it at its last '.' and
   * the text before that at its last '_' gives back the name, hash and extension it was built
   * from (the extension holds no '.', the hexadecimal hash no '_').
   */
  function CacheKey(key: string): (ck: string)
    ensures ParseCacheKey(ck) == Some(PartsOf(key))
  {
    var p := PartsOf(key);
    assert '_' !in p.hash by {
      assert IsHexString(p.hash);
    }
    JoinedPartsParse(p.name, p.hash, p.ext);
    p.name + "_" + p.hash + "." + p.ext
  }

  /** The three parts a cache key is assembled from. */
  datatype KeyParts = KeyParts(name: string, hash: string, ext: string)

  function PartsOf(key: string): KeyParts
  {
    KeyParts(NameWithoutExtension(FileName(key)), ToHexString(HashCode(key)), Extension(key))
  }

  /**
   * Splits a file name at its last '.' and the text before it at its last '_'; the inverse of
   * `CacheKey` (the extension holds no '.', the hash no '_').
   */
  function ParseCacheKey(ck: string): Option<KeyParts>
  {
    var dot := LastIndexOf(ck, '.');
    if dot < 0 then None
    else
      var stem := ck[..dot];
      var bar := LastIndexOf(stem, '_');
      if bar < 0 then None
      else Some(KeyParts(stem[..bar], stem[bar + 1..], ck[dot + 1..]))
  }

  /** A name, a hash without '_' and an extension without '.', joined, split back apart. */
  lemma JoinedPartsParse(name: string, hash: string, ext: string)
    requires '_' !in hash && '.' !in ext
    ensures ParseCacheKey(name + "_" + hash + "." + ext) == Some(KeyParts(name, hash, ext))
  {
    var ck := name + "_" + hash + "." + ext;
    var stem := name + "_" + hash;
    assert ck == stem + ['.'] + ext;
    LastIndexOfSplit(stem, '.', ext);
    assert ck[..|stem|] == stem;
    assert ck[|stem| + 1..] == ext;
    assert stem == name + ['_'] + hash;
    LastIndexOfSplit(name, '_', hash);
    assert stem[..|name|] == name;
    assert stem[|name| + 1..] == hash;
  }

  /**
   * Two artifact keys get the same cache key exactly when their base names, their Java hashes
   * and their extensions agree; in particular different hashes give different cache keys.
   */
  lemma {:induction false} CacheKeyEquality(k1: string, k2: string)
    ensures CacheKey(k1) == CacheKey(k2) <==>
      && NameWithoutExtension(FileName(k1)) == NameWithoutExtension(FileName(k2))
      && HashCode(k1) == HashCode(k2)
      && Extension(k1) == Extension(k2)
  {
    if CacheKey(k1) == CacheKey(k2) {
      assert PartsOf(k1) == PartsOf(k2);
      HexRoundTrip(Unsigned(HashCode(k1)));
      HexRoundTrip(Unsigned(HashCode(k2)));
      UnsignedInjective(HashCode(k1), HashCode(k2));
    }
  }

  /**
   * The hash suffix holds one to eight lower-case hex digits and reads back as the unsigned
   * hash; the '.' is written even when the extension is empty, so such a key ends in '.'.
   */
  lemma CacheKeyLayout(key: string)
    ensures var p := PartsOf(key);
      && 1 <= |p.hash| <= 8 && IsHexString(p.hash)
      && ParseHex(p.hash) == Unsigned(HashCode(key))
      && CacheKey(key) == p.name + "_" + p.hash + "." + p.ext
    ensures Extension(key) == "" ==> CacheKey(key)[|CacheKey(key)| - 1] == '.'
  {
    ToHexStringWidth(HashCode(key));
    HexRoundTrip(Unsigned(HashCode(key)));
  }

  /**
   * The extension is taken from the whole key, not from its file name: when the last '.' of
   * the key lies in a directory name, the rest of the path, separator included, ends up in
   * the cache key.
   */
  lemma ExtensionOfWholeKey(a: string, b: string, f: string)
    requires '.' !in b && '.' !in f && '/' !in f && '\\' !in f
    ensures var key := a + "." + b + "/" + f;
      && Extension(key) == b + "/" + f
      && CacheKey(key) == f + "_" + ToHexString(HashCode(key)) + "." + (b + "/" + f)
  {
    var key := a + "." + b + "/" + f;
    assert key == a + ['.'] + (b + "/" + f);
    LastIndexOfSplit(a, '.', b + "/" + f);
    assert key[|a| + 1..] == b + "/" + f;
    assert key == (a + "." + b) + ['/'] + f;
    LastIndexOfSplit(a + "." + b, '/', f);
    var slash := |a| + |b| + 1;
    assert key[slash + 1..] == f;
    assert LastIndexOf(key, '\\') < slash by {
      assert key[slash] == '/';
      assert forall j :: slash < j < |key| ==> key[j] == f[j - slash - 1];
    }
    assert FileName(key) == f;
    assert NameWithoutExtension(f) == f;
  }
}
