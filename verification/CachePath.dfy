/**
 * `get_cache_filepath` of src/utils/client_cache.c: the file name of a key is the hex MD5 digest of
 * its bytes. It is the instance of `Env.fileOf` that the program uses.
 */
module CachePath {
  import opened CacheSpec
  import opened LittleEndian
  import opened Rfc1321
  import opened HashMd5Api

  const CACHE_DIR := "src/client/cache"

  /** A char is a byte. */
  function ByteOf(c: char): (b: Byte)
    ensures c as int < 256 ==> b as int == c as int
  {
    (c as int % 256) as Byte
  }

  /** The bytes of a key. */
  function BytesOf(key: string): (b: seq<Byte>)
    ensures |b| == |key| && forall i :: 0 <= i < |key| ==> b[i] == ByteOf(key[i])
  {
    seq(|key|, i requires 0 <= i < |key| => ByteOf(key[i]))
  }

  function FileName(key: string): string {
    Hex(Digest(BytesOf(key))) + ".json"
  }

  /** `get_cache_filepath`: CACHE_DIR, the hash, and the suffix. */
  method GetCacheFilepath(key: string) returns (path: string)
    ensures path == CACHE_DIR + "/" + FileName(key)
  {
    hide Digest, Hex;
    var hash := new char[33](_ => '\0');
    var data := new Byte[|key|](i requires 0 <= i < |key| => ByteOf(key[i]));
    assert data[..|key|] == BytesOf(key);
    var err := HashMd5String(data, |key|, hash, 33);
    var hex := hash[..32];
    assert hash[..33][..32] == hex;
    return CACHE_DIR + "/" + hex + ".json";
  }

  /** Two keys share a file exactly when their digests collide, and no key owns the spared file. */
  lemma FileNameCollides(k: string, l: string)
    ensures FileName(k) == FileName(l) <==> Digest(BytesOf(k)) == Digest(BytesOf(l))
    ensures FileName(k) != SPARED
  {
    hide Digest, Hex;
    var x, y := Hex(Digest(BytesOf(k))), Hex(Digest(BytesOf(l)));
    assert FileName(k)[..32] == x && FileName(l)[..32] == y;
    if FileName(k) == FileName(l) { HexInjective(Digest(BytesOf(k)), Digest(BytesOf(l))); }
    assert |FileName(k)| == 37 && |SPARED| == 9;
  }

  /** So the hypothesis on names holds of the program for any keys without an MD5 collision among them. */
  lemma NamesDistinctWithoutCollision(env: Env, keys: set<string>)
    requires forall k :: env.fileOf(k) == FileName(k)
    ensures env.NamesDistinct(keys) <==>
      forall k, l :: k in keys && l in keys && Digest(BytesOf(k)) == Digest(BytesOf(l)) ==> k == l
  {
    hide Digest, BytesOf, FileName;
    forall k, l
      ensures (FileName(k) == FileName(l) <==> Digest(BytesOf(k)) == Digest(BytesOf(l))) && FileName(k) != SPARED
    {
      FileNameCollides(k, l);
    }
    forall k, l | env.NamesDistinct(keys) && k in keys && l in keys && Digest(BytesOf(k)) == Digest(BytesOf(l))
      ensures k == l
    {
      assert env.fileOf(k) == env.fileOf(l);
    }
  }
}
