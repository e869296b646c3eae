/**
 * Single values, written out: what the functions of the model yield on inputs that exercise their
 * constants and their error branches.
 */
module KnownAnswers {
  import opened Base
  import B = LittleEndian
  import H = HttpClient
  import M = HashMd5Api
  import D = Rfc1321
  import E = Md5OfEmpty
  import P = CachePath
  import R = Url
  import S = HttpResponse

  // ----- file names -----

  lemma {:induction false} HexConcat(b: seq<B.Byte>, c: seq<B.Byte>)
    ensures M.Hex(b + c) == M.Hex(b) + M.Hex(c)
  {
    hide M.HexByte;
    if c == [] {
      assert b + c == b;
      M.HexEmpty();
    } else {
      assert (b + c)[..|b + c| - 1] == b + c[..|c| - 1];
      HexConcat(b, c[..|c| - 1]);
    }
  }

  lemma OneByte(a: B.Byte)
    ensures M.Hex([a]) == Pair(a)
  {
    PairIs(a);
    hide M.HexByte, Pair;
    M.HexEmpty();
    M.HexAppend([], a);
    assert [] + [a] == [a];
  }

  lemma TwoBytes(a: B.Byte, b: B.Byte)
    ensures M.Hex([a, b]) == Pair(a) + Pair(b)
  {
    hide M.Hex, Pair;
    OneByte(a);
    OneByte(b);
    HexConcat([a], [b]);
    assert [a] + [b] == [a, b];
  }

  lemma FourBytes(a: B.Byte, b: B.Byte, c: B.Byte, d: B.Byte)
    ensures M.Hex([a, b, c, d]) == Pair(a) + Pair(b) + (Pair(c) + Pair(d))
  {
    hide M.Hex, Pair;
    TwoBytes(a, b);
    TwoBytes(c, d);
    HexConcat([a, b], [c, d]);
    assert [a, b] + [c, d] == [a, b, c, d];
  }

  function Pair(b: B.Byte): string {
    [M.HEX_DIGITS[b as int / 16], M.HEX_DIGITS[b as int % 16]]
  }

  lemma PairIs(b: B.Byte)
    ensures M.HexByte(b) == Pair(b)
  {
    M.HexByteIs(b);
  }

  lemma Quarter0()
    ensures M.Hex([0xd4, 0x1d, 0x8c, 0xd9]) == "d41d8cd9"
  {
    FourBytes(0xd4, 0x1d, 0x8c, 0xd9);
    hide M.Hex;
    assert Pair(0xd4) == "d4" && Pair(0x1d) == "1d" && Pair(0x8c) == "8c" && Pair(0xd9) == "d9";
  }

  lemma Quarter1()
    ensures M.Hex([0x8f, 0x00, 0xb2, 0x04]) == "8f00b204"
  {
    FourBytes(0x8f, 0x00, 0xb2, 0x04);
    hide M.Hex;
    assert Pair(0x8f) == "8f" && Pair(0x00) == "00" && Pair(0xb2) == "b2" && Pair(0x04) == "04";
  }

  lemma Quarter2()
    ensures M.Hex([0xe9, 0x80, 0x09, 0x98]) == "e9800998"
  {
    FourBytes(0xe9, 0x80, 0x09, 0x98);
    hide M.Hex;
    assert Pair(0xe9) == "e9" && Pair(0x80) == "80" && Pair(0x09) == "09" && Pair(0x98) == "98";
  }

  lemma Quarter3()
    ensures M.Hex([0xec, 0xf8, 0x42, 0x7e]) == "ecf8427e"
  {
    FourBytes(0xec, 0xf8, 0x42, 0x7e);
    hide M.Hex;
    assert Pair(0xec) == "ec" && Pair(0xf8) == "f8" && Pair(0x42) == "42" && Pair(0x7e) == "7e";
  }

  lemma Whole()
    ensures "src/client/cache" + "/" + ("d41d8cd9" + "8f00b204" + ("e9800998" + "ecf8427e") + ".json")
      == "src/client/cache/d41d8cd98f00b204e9800998ecf8427e.json"
  {
  }

  /** The file of the empty key. */
  lemma EmptyKeyFile()
    ensures P.CACHE_DIR + "/" + P.FileName("") == "src/client/cache/d41d8cd98f00b204e9800998ecf8427e.json"
  {
    hide M.Hex, D.Digest;
    E.DigestOfEmpty();
    assert P.BytesOf("") == [];
    Quarter0();
    Quarter1();
    Quarter2();
    Quarter3();
    var w, x: seq<B.Byte> := [0xd4, 0x1d, 0x8c, 0xd9], [0x8f, 0x00, 0xb2, 0x04];
    var y, z: seq<B.Byte> := [0xe9, 0x80, 0x09, 0x98], [0xec, 0xf8, 0x42, 0x7e];
    assert D.Digest([]) == w + x + (y + z);
    HexConcat(w, x);
    HexConcat(y, z);
    HexConcat(w + x, y + z);
    Whole();
  }

  // ----- numbers -----

  /** atoi and %d keep the low 32 bits of a long. */
  lemma Ints()
    ensures H.IntOf(0x8000_0000) == -0x8000_0000 && H.IntOf(0x1_0000_0005) == 5
    ensures H.IntOf(0x8000_0000_0000_0000) == -1 && H.IntOf(-0x8000_0000_0000_0001) == 0
  {
  }

  /** The code that a status line tells is the number that is written. */
  lemma StatusIs(r: S.Response, n: nat)
    requires r.code == R.DecimalString(n) && n <= 0x7fff_ffff
    ensures S.Number(r.code) && S.StatusOf(r) == n
  {
    R.DecimalRoundTrip(n);
    hide R.DecimalString, H.Decimal;
  }

  // ----- URLs -----

  /** A port is kept up to 2^31 - 1; from sixteen digits on it is 80. */
  lemma WrittenPort(host: string, port: nat)
    requires R.HostName(host)
    ensures var p := R.ParseUrl("http://" + host + ":" + R.DecimalString(port));
      && p.Some? && (port <= 0x7fff_ffff ==> p.value.port == port)
      && (port >= 1_000_000_000_000_000 ==> p.value.port == 80)
  {
    hide R.ParseUrl, R.HostName, R.DecimalString;
    R.ParseRendered(R.Parts(R.Http, host, Some(port), ""));
    assert "http://" + host + ":" + R.DecimalString(port) == R.Render(R.Parts(R.Http, host, Some(port), ""));
  }

  /** Without a port it is 80, or 443 for https; without a path it is "/". */
  lemma DefaultPorts(host: string, path: string)
    requires R.HostName(host) && |path| <= 511 && (path != "" ==> path[0] == '/')
    ensures var p := if path == "" then "/" else path;
      && R.ParseUrl(host + path) == Some(R.Parsed(host, 80, p))
      && R.ParseUrl("http://" + host + path) == Some(R.Parsed(host, 80, p))
      && R.ParseUrl("https://" + host + path) == Some(R.Parsed(host, 443, p))
  {
    hide R.ParseUrl, R.HostName;
    R.ParseRendered(R.Parts(R.Bare, host, None, path));
    R.ParseRendered(R.Parts(R.Http, host, None, path));
    R.ParseRendered(R.Parts(R.Https, host, None, path));
    UrlText(host, path);
  }

  lemma UrlText(host: string, path: string)
    ensures R.Render(R.Parts(R.Bare, host, None, path)) == host + path
    ensures R.Render(R.Parts(R.Http, host, None, path)) == "http://" + host + path
    ensures R.Render(R.Parts(R.Https, host, None, path)) == "https://" + host + path
  {
    assert "" + path == path && "" + host == host;
  }
}
