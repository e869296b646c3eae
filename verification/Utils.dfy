/** The string functions of src/utils/utils.c: form encoding, the cache-key normaliser, the city check. */
module Utils {
  import opened Base

  /** The bytes of a C string. */
  predicate IsCString(s: string) {
    forall i :: 0 <= i < |s| ==> 0 < s[i] as int < 256
  }

  // ----- `url_encode` -----

  predicate IsAlnum(c: char) {
    '0' <= c <= '9' || 'a' <= c <= 'z' || 'A' <= c <= 'Z'
  }

  /** Section 2.3 of RFC 3986. */
  predicate IsUnreserved(c: char) {
    IsAlnum(c) || c == '-' || c == '_' || c == '.' || c == '~'
  }

  function UpperHex(n: nat): (c: char)
    requires n < 16
    ensures '0' <= c <= '9' || 'A' <= c <= 'F'
  {
    if n < 10 then '0' + n as char else 'A' + (n - 10) as char
  }

  function UpperValue(c: char): Option<nat> {
    if '0' <= c <= '9' then Some(c as nat - '0' as nat)
    else if 'A' <= c <= 'F' then Some(c as nat - 'A' as nat + 10)
    else None
  }

  function EncodeChar(c: char): (r: string)
    requires c as int < 256
    ensures 1 <= |r| <= 3
  {
    if IsUnreserved(c) then [c]
    else if c == ' ' then "+"
    else ['%', UpperHex(c as nat / 16), UpperHex(c as nat % 16)]
  }

  function Encoded(s: string): (r: string)
    requires IsCString(s)
    ensures |s| <= |r| <= 3 * |s|
  {
    if s == "" then "" else EncodeChar(s[0]) + Encoded(s[1..])
  }

  /** application/x-www-form-urlencoded, read backwards; None for a stray percent sign. */
  function FormDecode(e: string): Option<string> {
    if e == "" then Some("")
    else if e[0] == '%' then
      if |e| < 3 then None else
        match (UpperValue(e[1]), UpperValue(e[2]), FormDecode(e[3..]))
        case (Some(h), Some(l), Some(rest)) => Some([(16 * h + l) as char] + rest)
        case _ => None
    else
      match FormDecode(e[1..])
      case Some(rest) => Some([if e[0] == '+' then ' ' else e[0]] + rest)
      case None => None
  }

  lemma DecodeEncodeChar(c: char, e: string)
    requires 0 < c as int < 256
    ensures FormDecode(EncodeChar(c) + e) == match FormDecode(e) case Some(rest) => Some([c] + rest) case None => None
  {
    var t := EncodeChar(c) + e;
    if IsUnreserved(c) || c == ' ' {
      assert t[1..] == e;
    } else {
      var n := c as nat;
      assert t[1] == UpperHex(n / 16) && t[2] == UpperHex(n % 16) && t[3..] == e;
      assert UpperValue(UpperHex(n / 16)) == Some(n / 16) && UpperValue(UpperHex(n % 16)) == Some(n % 16);
      assert 16 * (n / 16) + n % 16 == n;
    }
  }

  /** Form decoding undoes the encoder, for every C string; so no two have the same encoding. */
  lemma {:induction false} FormRoundTrip(s: string)
    requires IsCString(s)
    ensures FormDecode(Encoded(s)) == Some(s)
  {
    hide EncodeChar, FormDecode;
    if s == "" {
      assert FormDecode("") == Some("") by { EmptyDecodes(); }
    } else {
      FormRoundTrip(s[1..]);
      DecodeEncodeChar(s[0], Encoded(s[1..]));
      assert s == [s[0]] + s[1..];
    }
  }

  lemma EmptyDecodes()
    ensures FormDecode("") == Some("")
  {
  }

  const CAPITALS := "ABCDEFGHIJKLMNOPQRSTUVWXYZ"
  const SMALL := "abcdefghijklmnopqrstuvwxyz"
  const UNRESERVED := CAPITALS + SMALL + "0123456789" + "-_.~"
  const HEX := "0123456789ABCDEF"

  /** The characters from the first to the last of s, which is the alphabet between them. */
  lemma RangeIs(c: char, s: string)
    requires s != "" && forall i :: 0 <= i < |s| ==> s[i] as int == s[0] as int + i
    ensures c in s <==> s[0] <= c <= s[|s| - 1]
  {
    if s[0] <= c <= s[|s| - 1] { assert s[c as int - s[0] as int] == c; }
  }

  lemma MarkIs(c: char)
    ensures c in "-_.~" <==> c == '-' || c == '_' || c == '.' || c == '~'
  {
    assert "-_.~"[0] == '-' && "-_.~"[1] == '_' && "-_.~"[2] == '.' && "-_.~"[3] == '~';
  }

  lemma UnreservedIs(c: char)
    ensures IsUnreserved(c) <==> c in UNRESERVED
  {
    RangeIs(c, CAPITALS);
    RangeIs(c, SMALL);
    RangeIs(c, "0123456789");
    MarkIs(c);
    var a, b, d, e := CAPITALS, SMALL, "0123456789", "-_.~";
    assert c in a + b + d + e <==> c in a || c in b || c in d || c in e;
  }

  lemma UpperHexIs(n: nat)
    requires n < 16
    ensures UpperHex(n) == HEX[n]
  {
  }

  /** Letters, digits and -_.~ stay, a blank becomes a plus, and of the others the two digits are written. */
  lemma EncodedOne(c: char)
    requires 0 < c as int < 256
    ensures Encoded([c]) ==
      if c in UNRESERVED then [c]
      else if c == ' ' then "+"
      else ['%', HEX[c as int / 16], HEX[c as int % 16]]
  {
    UnreservedIs(c);
    UpperHexIs(c as int / 16);
    UpperHexIs(c as int % 16);
    assert [c][1..] == "";
  }

  /** And so for each character of a text. */
  lemma {:induction false} EncodedEach(s: string, t: string)
    requires IsCString(s) && IsCString(t)
    ensures IsCString(s + t) && Encoded(s + t) == Encoded(s) + Encoded(t)
  {
    hide EncodeChar;
    if s == "" {
      assert s + t == t;
    } else {
      assert (s + t)[1..] == s[1..] + t;
      EncodedEach(s[1..], t);
    }
  }

  /** A text of these characters alone is its own encoding. */
  lemma {:induction false} UnreservedStay(s: string)
    requires forall i :: 0 <= i < |s| ==> s[i] in UNRESERVED
    ensures IsCString(s) && Encoded(s) == s
  {
    if s != "" {
      UnreservedIs(s[0]);
      UnreservedStay(s[1..]);
      assert s == [s[0]] + s[1..];
      assert s[0] in UNRESERVED;
      assert forall i :: 1 <= i < |s| ==> s[i] == s[1..][i - 1];
    }
  }

  lemma EncodedInjective(s: string, t: string)
    requires IsCString(s) && IsCString(t) && Encoded(s) == Encoded(t)
    ensures s == t
  {
    FormRoundTrip(s);
    FormRoundTrip(t);
  }

  predicate QuerySafe(e: string) {
    forall i :: 0 <= i < |e| ==> IsUnreserved(e[i]) || e[i] == '+' || e[i] == '%'
  }

  /** Only unreserved characters, plus and percent come out; none of '&', '=', '/', ':' or a blank. */
  lemma {:induction false} EncodedIsSafe(s: string)
    requires IsCString(s)
    ensures QuerySafe(Encoded(s))
  {
    if s != "" { EncodedIsSafe(s[1..]); }
  }

  lemma {:induction false} EncodedSnoc(s: string, c: char)
    requires IsCString(s) && 0 < c as int < 256
    ensures IsCString(s + [c]) && Encoded(s + [c]) == Encoded(s) + EncodeChar(c)
  {
    hide EncodeChar;
    if s == "" {
      assert "" + [c] == [c] && [c][1..] == "";
    } else {
      EncodedSnoc(s[1..], c);
      assert (s + [c])[1..] == s[1..] + [c];
    }
  }

  /** The loop body of `url_encode`: one to three characters, and a NUL that sprintf adds. */
  method PutChar(encoded: array<char>, pos: nat, c: char) returns (next: nat)
    requires c as int < 256 && pos + 3 < encoded.Length
    modifies encoded
    ensures next == pos + |EncodeChar(c)| && encoded[..next] == old(encoded[..pos]) + EncodeChar(c)
  {
    if IsUnreserved(c) {
      encoded[pos] := c;
      next := pos + 1;
    } else if c == ' ' {
      encoded[pos] := '+';
      next := pos + 1;
    } else {
      encoded[pos], encoded[pos + 1], encoded[pos + 2], encoded[pos + 3] :=
        '%', UpperHex(c as nat / 16), UpperHex(c as nat % 16), '\0';
      next := pos + 3;
    }
  }

  /** `url_encode`: null for null, else a NUL-terminated block of three bytes per byte and one. */
  method UrlEncode(str: Option<string>) returns (encoded: array?<char>, ghost n: nat)
    requires str.Some? ==> IsCString(str.value)
    ensures encoded == null <==> str.None?
    ensures encoded != null ==> n == |Encoded(str.value)| < encoded.Length
    ensures encoded != null ==> encoded[..n] == Encoded(str.value) && encoded[n] == '\0'
  {
    hide Encoded, EncodeChar;
    if str.None? { return null, 0; }
    var s := str.value;
    var len := |s|;
    encoded := new char[len * 3 + 1](_ => '\0');
    var pos: nat := 0;
    EncodedEmpty();
    for i := 0 to len
      invariant pos <= 3 * i && encoded[..pos] == Encoded(s[..i])
    {
      pos := PutChar(encoded, pos, s[i]);
      EncodedSnoc(s[..i], s[i]);
      assert s[..i + 1] == s[..i] + [s[i]];
    }
    assert s[..len] == s;
    encoded[pos] := '\0';
    n := pos;
  }

  lemma EncodedEmpty()
    ensures Encoded("") == ""
  {
  }

  /** `validate_city_name`. */
  predicate ValidCity(city: Option<string>) {
    city.Some? && 1 <= |city.value| <= 100
  }

  // ----- `normalize_string_for_cache` -----

  predicate IsSep(c: char) {
    c == ' ' || c == '\t' || c == '+' || c == '_'
  }

  /** A blank, a tab, a plus or an underscore, and nothing else. */
  lemma SepIs(c: char)
    ensures IsSep(c) <==> c in " \t+_"
  {
    assert " \t+_"[0] == ' ' && " \t+_"[1] == '\t' && " \t+_"[2] == '+' && " \t+_"[3] == '_';
  }

  /** The capitals become the small letters, everything else stays. */
  lemma LowerIs(c: char)
    ensures forall i :: 0 <= i < 26 ==> Lower(CAPITALS[i]) == SMALL[i]
    ensures c !in CAPITALS ==> Lower(c) == c
  {
    if 'A' <= c <= 'Z' { assert CAPITALS[c as int - 65] == c; }
  }

  /** The maximal runs of characters that are not separators, in lower case. */
  function Words(s: string): seq<string> {
    if s == "" then [] else
      var n := |s| - 1;
      var ws, c := Words(s[..n]), s[n];
      if IsSep(c) then ws
      else if ws == [] || IsSep(s[n - 1]) then ws + [[Lower(c)]]
      else ws[..|ws| - 1] + [ws[|ws| - 1] + [Lower(c)]]
  }

  /** The text without separators, in lower case. */
  function Letters(s: string): string {
    if s == "" then ""
    else if s[|s| - 1] in " \t+_" then Letters(s[..|s| - 1])
    else Letters(s[..|s| - 1]) + [Lower(s[|s| - 1])]
  }

  /** The words hold every character that is no separator, in order and in lower case, and nothing else. */
  lemma {:induction false} WordsKeepLetters(s: string)
    ensures Concat(Words(s)) == Letters(s)
  {
    hide IsSep;
    if s != "" {
      var n := |s| - 1;
      var ws, c := Words(s[..n]), s[n];
      WordsKeepLetters(s[..n]);
      SepIs(c);
      if !IsSep(c) {
        if ws == [] || IsSep(s[n - 1]) {
          assert (ws + [[Lower(c)]])[..|ws|] == ws;
        } else {
          var front, w := ws[..|ws| - 1], ws[|ws| - 1];
          assert (front + [w + [Lower(c)]])[..|front|] == front;
          assert Concat(front) + (w + [Lower(c)]) == Concat(front) + w + [Lower(c)];
        }
      }
    }
  }

  function Join(ws: seq<string>): string {
    if ws == [] then ""
    else if |ws| == 1 then ws[0]
    else Join(ws[..|ws| - 1]) + "_" + ws[|ws| - 1]
  }

  function DropSep(s: string): string {
    if s != "" && s[|s| - 1] == '_' then s[..|s| - 1] else s
  }

  /** The words joined by underscores, cut to outSize - 1 characters, without an underscore at the end. */
  function Normalized(s: string, outSize: nat): string
    requires outSize > 0
  {
    DropSep(Cut(Join(Words(s)), outSize - 1))
  }

  /** What the loop has written after reading s, were the buffer unbounded. */
  function Raw(s: string): string {
    if s == "" then "" else Put(Raw(s[..|s| - 1]), s[|s| - 1])
  }

  /** One turn of the loop; the flag prev_was_sep says that the output ends in an underscore. */
  function Put(out: string, c: char): (r: string)
    ensures |out| <= |r| <= |out| + 1 && out <= r
  {
    if IsSep(c) then
      if out == "" || out[|out| - 1] == '_' then out else out + "_"
    else out + [Lower(c)]
  }

  lemma {:induction false} RawPrefix(s: string, i: nat)
    requires i <= |s|
    ensures Raw(s[..i]) <= Raw(s)
  {
    if i == |s| {
      assert s[..i] == s;
    } else {
      RawPrefix(s[..|s| - 1], i);
      assert s[..|s| - 1][..i] == s[..i];
    }
  }

  lemma JoinSnoc(ws: seq<string>, w: string)
    ensures Join(ws + [w]) == if ws == [] then w else Join(ws) + "_" + w
  {
    assert (ws + [w])[..|ws|] == ws;
  }

  predicate WordList(ws: seq<string>) {
    forall i :: 0 <= i < |ws| ==> ws[i] != "" && forall j :: 0 <= j < |ws[i]| ==> !IsSep(ws[i][j])
  }

  lemma {:induction false} WordsAreWords(s: string)
    ensures WordList(Words(s)) && (s != "" && !IsSep(s[|s| - 1]) ==> Words(s) != [])
  {
    if s != "" { WordsAreWords(s[..|s| - 1]); }
  }

  /** A joined word list ends in no underscore. */
  lemma JoinEnd(ws: seq<string>)
    requires WordList(ws) && ws != []
    ensures Join(ws) != "" && !IsSep(Join(ws)[|Join(ws)| - 1])
  {
    var w := ws[|ws| - 1];
    assert Join(ws)[|Join(ws)| - 1] == w[|w| - 1];
  }

  lemma RawSnoc(s: string, i: nat)
    requires i < |s|
    ensures Raw(s[..i + 1]) == Put(Raw(s[..i]), s[i])
  {
    assert s[..i + 1][..i] == s[..i];
  }

  function Tail(open: bool): string {
    if open then "_" else ""
  }

  /** A separator after joined words, the first or not. */
  lemma PutSep(ws: seq<string>, after: bool, c: char)
    requires WordList(ws) && (after ==> ws != []) && IsSep(c)
    ensures Put(Join(ws) + Tail(after), c) == Join(ws) + Tail(ws != [])
  {
    if ws == [] { JoinNone(); } else { JoinEnd(ws); }
  }

  /** The first character of a new word. */
  lemma PutNew(ws: seq<string>, c: char)
    requires !IsSep(c)
    ensures Put(Join(ws) + Tail(ws != []), c) == Join(ws + [[Lower(c)]])
  {
    hide Join;
    JoinNone();
    JoinSnoc(ws, [Lower(c)]);
  }

  /** One more character of the last word. */
  lemma PutMore(front: seq<string>, w: string, c: char)
    requires !IsSep(c)
    ensures Put(Join(front + [w]), c) == Join(front + [w + [Lower(c)]])
  {
    hide Join;
    JoinSnoc(front, w);
    JoinSnoc(front, w + [Lower(c)]);
    assert Join(front) + "_" + w + [Lower(c)] == Join(front) + "_" + (w + [Lower(c)]);
  }

  /** The loop writes the words joined, and an underscore more after a separator. */
  lemma {:induction false} RawIsJoin(s: string)
    ensures Raw(s) == Join(Words(s)) + Tail(Words(s) != [] && IsSep(s[|s| - 1]))
  {
    hide Join, Put, WordList;
    if s == "" {
      JoinNone();
    } else {
      var n, c := |s| - 1, s[|s| - 1];
      var ws := Words(s[..n]);
      RawIsJoin(s[..n]);
      WordsAreWords(s[..n]);
      if IsSep(c) {
        PutSep(ws, ws != [] && IsSep(s[n - 1]), c);
      } else if ws == [] || IsSep(s[n - 1]) {
        PutNew(ws, c);
      } else {
        assert ws == ws[..|ws| - 1] + [ws[|ws| - 1]] && Join(ws) + "" == Join(ws);
        PutMore(ws[..|ws| - 1], ws[|ws| - 1], c);
      }
    }
  }

  lemma JoinNone()
    ensures Join([]) == ""
  {
  }

  lemma CutDrop(s: string, n: nat)
    requires s != "" && !IsSep(s[|s| - 1])
    ensures DropSep(Cut(s + "_", n)) == DropSep(Cut(s, n))
  {
    if n <= |s| { assert (s + "_")[..n] == s[..n]; }
  }

  /** So cutting and dropping one underscore gives the same on both. */
  lemma RawNormalizes(s: string, outSize: nat)
    requires outSize > 0
    ensures DropSep(Cut(Raw(s), outSize - 1)) == Normalized(s, outSize)
  {
    hide Raw, Words, Join, DropSep, Cut, WordList;
    assert Join(Words(s)) + "" == Join(Words(s));
    RawIsJoin(s);
    WordsAreWords(s);
    if Words(s) != [] {
      JoinEnd(Words(s));
      CutDrop(Join(Words(s)), outSize - 1);
    }
  }

  lemma RawEmpty()
    ensures Raw("") == ""
  {
  }

  /** The body of the loop in `normalize_string_for_cache`. */
  method PutOne(out: array<char>, j: nat, prevWasSep: bool, c: char) returns (j': nat, sep': bool)
    requires j < out.Length && (prevWasSep <==> j > 0 && out[j - 1] == '_')
    modifies out
    ensures j' <= j + 1 && out[..j'] == Put(old(out[..j]), c) && (sep' <==> j' > 0 && out[j' - 1] == '_')
  {
    j', sep' := j, prevWasSep;
    if c == ' ' || c == '\t' || c == '+' || c == '_' {
      if !(j == 0 || prevWasSep) {
        out[j] := '_';
        j', sep' := j + 1, true;
      }
    } else {
      out[j] := if 'A' <= c <= 'Z' then c - 'A' + 'a' else c;
      j', sep' := j + 1, false;
    }
  }

  /** `normalize_string_for_cache`; with a null argument or no room it does nothing. */
  method NormalizeStringForCache(input: Option<string>, out: array?<char>, outSize: nat) returns (ghost n: nat)
    requires input.Some? ==> IsCString(input.value)
    requires out != null ==> outSize <= out.Length
    modifies out
    ensures out != null && (input.None? || outSize == 0) ==> out[..] == old(out[..])
    ensures input.Some? && out != null && outSize > 0 ==>
      n < outSize && out[..n] == Normalized(input.value, outSize) && out[n] == '\0'
  {
    hide Raw, Normalized, Put;
    n := 0;
    if input.None? || out == null || outSize == 0 { return; }
    var s := input.value;
    RawEmpty();
    var i, j: nat, prevWasSep := 0, 0, false;
    while i < |s| && j + 1 < outSize
      invariant i <= |s| && j < outSize && out[..j] == Raw(s[..i])
      invariant prevWasSep <==> j > 0 && out[j - 1] == '_'
    {
      RawSnoc(s, i);
      j, prevWasSep := PutOne(out, j, prevWasSep, s[i]);
      i := i + 1;
    }
    RawPrefix(s, i);
    assert s[..|s|] == s;
    assert out[..j] == Cut(Raw(s), outSize - 1);
    RawNormalizes(s, outSize);
    if j > 0 && out[j - 1] == '_' { j := j - 1; }
    out[j] := '\0';
    n := j;
  }
}
